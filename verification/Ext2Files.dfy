/** ext2_write_file and ext2_read_file (kernel/fs/ext2.c): files as byte strings. */
module Ext2Files {
  import opened Arith
  import opened Bytes
  import opened Ext2Blocks
  import opened Ext2Layout
  import opened Ext2Steps
  import opened Ext2

  // ----- the bytes of a block after a write that covers part of it -----

  /** Byte `j` of block `i` of a file with `data` written over `old` at `offset`. */
  function NewByte(b: Block, i: nat, j: nat, offset: nat, data: seq<byte>, bs: nat): byte
    requires j < |b|
  {
    var pos := i * bs + j;
    if offset <= pos < offset + |data| then data[pos - offset] else b[j]
  }

  function Overlaid(b: Block, i: nat, offset: nat, data: seq<byte>, bs: nat): (r: Block)
    ensures |r| == |b|
  {
    seq(|b|, j requires 0 <= j < |b| => NewByte(b, i, j, offset, data, bs))
  }

  lemma OverlaidNothing(b: Block, i: nat, offset: nat, bs: nat)
    ensures Overlaid(b, i, offset, [], bs) == b
  {
  }

  /** Writing one more chunk touches the block it falls in, and no other. */
  lemma ChunkOverlaid(b: Block, i: nat, offset: nat, data: seq<byte>, done: nat, n: nat, bs: nat)
    requires |b| == bs && 0 < bs && done + n <= |data| && (offset + done) % bs + n <= bs
    ensures Overlaid(b, i, offset, data[..done + n], bs)
         == if i == (offset + done) / bs then
             Patched(Overlaid(b, i, offset, data[..done], bs), (offset + done) % bs, data[done..done + n])
            else Overlaid(b, i, offset, data[..done], bs)
  {
    var idx, off := (offset + done) / bs, (offset + done) % bs;
    assert offset + done == idx * bs + off;
    var r, t := Overlaid(b, i, offset, data[..done + n], bs), data[done..done + n];
    var o := Overlaid(b, i, offset, data[..done], bs);
    Multiples(i, idx, bs);
    Multiples(idx, i, bs);
    if i == idx {
      var p := Patched(o, off, t);
      forall j | 0 <= j < bs ensures r[j] == p[j] {
      }
    } else {
      forall j | 0 <= j < bs ensures r[j] == o[j] {
      }
    }
  }

  // ----- whether there is room -----

  /** How many of the blocks `lo..hi` of the file have no disk block. */
  ghost function Missing(d: Disk, ins: Inodes, f: nat, lo: nat, hi: nat, bs: nat): nat
    decreases hi - lo
  {
    if lo >= hi then 0
    else Missing(d, ins, f, lo + 1, hi, bs) + if At(d, ins, PlaceOf(f, lo, Ptrs(bs))) == 0 then 1 else 0
  }

  /** Whether filling `lo..hi` takes an indirect block the file does not have. */
  predicate TableMissing(inode: Inode, lo: nat, hi: nat, bs: nat) {
    Indirect(inode) == 0 && lo < hi && lo < 12 + Ptrs(bs) && 12 < hi
  }

  /** The missing blocks of `lo..hi` can all be had: each has a pointer, and enough blocks are free. */
  ghost predicate Room(d: Disk, ins: Inodes, f: nat, inode: Inode, lo: nat, hi: nat, sbFree: nat, bs: nat) {
    && Missing(d, ins, f, lo, hi, bs) + (if TableMissing(inode, lo, hi, bs) then 1 else 0) <= sbFree
    && forall i: nat :: lo <= i < hi && At(d, ins, PlaceOf(f, i, Ptrs(bs))) == 0 ==> i < 12 + Ptrs(bs)
  }

  lemma {:induction false} MissingSame(d: Disk, ins: Inodes, d': Disk, ins': Inodes, f: nat, k: nat, lo: nat, hi: nat,
                                       bs: nat)
    requires OnlyBlock(d, ins, d', ins', bs, f, k) && k < lo
    ensures Missing(d', ins', f, lo, hi, bs) == Missing(d, ins, f, lo, hi, bs)
    decreases hi - lo
  {
    hide At, PlaceOf, SameBut;
    if lo < hi {
      MissingSame(d, ins, d', ins', f, k, lo + 1, hi, bs);
    }
  }

  lemma NoTableNoBlock(d: Disk, ins: Inodes, f: nat, inode: Inode, i: nat, bs: nat)
    requires Holds(ins, f, inode) && Indirect(inode) == 0 && 12 <= i < 12 + Ptrs(bs)
    ensures At(d, ins, PlaceOf(f, i, Ptrs(bs))) == 0
  {
  }

  /** Handling block `lo` leaves room for the rest exactly if there was room for all. */
  lemma RoomStep(d: Disk, ins: Inodes, f: nat, inode: Inode, sb: nat, d': Disk, ins': Inodes, inode': Inode, sb': nat,
                 lo: nat, hi: nat, bs: nat)
    requires Holds(ins, f, inode) && lo < hi && 0 < Ptrs(bs) && OnlyBlock(d, ins, d', ins', bs, f, lo)
    requires At(d', ins', PlaceOf(f, lo, Ptrs(bs))) != 0
    requires At(d, ins, PlaceOf(f, lo, Ptrs(bs))) != 0 ==> sb' == sb && inode' == inode
    requires At(d, ins, PlaceOf(f, lo, Ptrs(bs))) == 0 ==>
      Reachable(inode, lo, sb, bs) && sb' == sb - 1 - NewTable(inode, lo)
      && (Indirect(inode') == 0 <==> lo < 12 && Indirect(inode) == 0)
    ensures Room(d, ins, f, inode, lo, hi, sb, bs) <==> Room(d', ins', f, inode', lo + 1, hi, sb', bs)
  {
    hide At, PlaceOf, SameBut, Indirect;
    MissingSame(d, ins, d', ins', f, lo, lo + 1, hi, bs);
    if Indirect(inode) == 0 && 12 <= lo < 12 + Ptrs(bs) {
      NoTableNoBlock(d, ins, f, inode, lo, bs);
    }
  }

  /** A block that cannot be had: there was no room. */
  lemma NoRoom(d: Disk, ins: Inodes, f: nat, inode: Inode, sb: nat, lo: nat, hi: nat, bs: nat)
    requires lo < hi && At(d, ins, PlaceOf(f, lo, Ptrs(bs))) == 0 && !Reachable(inode, lo, sb, bs)
    ensures !Room(d, ins, f, inode, lo, hi, sb, bs)
  {
    hide At, PlaceOf, Indirect;
  }

  // ----- whether all of it is reported written -----

  /** The blocks from `lo` that the inode itself has no pointer for start here. */
  function PastDirect(lo: nat): nat { if lo < 12 then 12 else lo }

  /**
   * A block can be allocated for each hole of `lo..hi`, whether or not it can be attached.
   * The indirect block takes one more, unless the last free block goes to the only hole
   * past the direct ones: then the indirect block is not made.
   */
  ghost predicate Reported(d: Disk, ins: Inodes, f: nat, inode: Inode, lo: nat, hi: nat, sbFree: nat, bs: nat) {
    var m := Missing(d, ins, f, lo, hi, bs);
    || m + (if TableMissing(inode, lo, hi, bs) then 1 else 0) <= sbFree
    || (TableMissing(inode, lo, hi, bs) && m == sbFree && Missing(d, ins, f, PastDirect(lo), hi, bs) == 1)
  }

  /** Handling block `lo`, be it mapped, found or lost, leaves the rest to be reported exactly if all was. */
  lemma ReportedStep(d: Disk, ins: Inodes, f: nat, inode: Inode, sb: nat, d': Disk, ins': Inodes, inode': Inode,
                     sb': nat, lo: nat, hi: nat, bs: nat)
    requires Holds(ins, f, inode) && Holds(ins', f, inode') && lo < hi && 0 < Ptrs(bs)
      && OnlyBlock(d, ins, d', ins', bs, f, lo)
    requires At(d, ins, PlaceOf(f, lo, Ptrs(bs))) != 0 ==> sb' == sb && inode' == inode
    requires At(d, ins, PlaceOf(f, lo, Ptrs(bs))) == 0 && Reachable(inode, lo, sb, bs) ==>
      sb' == sb - 1 - NewTable(inode, lo) && (Indirect(inode') == 0 <==> lo < 12 && Indirect(inode) == 0)
    requires At(d, ins, PlaceOf(f, lo, Ptrs(bs))) == 0 && !Reachable(inode, lo, sb, bs) ==>
      sb' == sb - 1 && Indirect(inode') == Indirect(inode)
    ensures Reported(d, ins, f, inode, lo, hi, sb, bs) <==> Reported(d', ins', f, inode', lo + 1, hi, sb', bs)
  {
    hide At, PlaceOf, SameBut, Indirect;
    MissingSame(d, ins, d', ins', f, lo, lo + 1, hi, bs);
    MissingSame(d, ins, d', ins', f, lo, PastDirect(lo + 1), hi, bs);
    if Indirect(inode) == 0 && 12 <= lo < 12 + Ptrs(bs) {
      NoTableNoBlock(d, ins, f, inode, lo, bs);
    }
    if Indirect(inode') == 0 && 12 <= lo + 1 < 12 + Ptrs(bs) {
      NoTableNoBlock(d', ins', f, inode', lo + 1, bs);
    }
  }

  lemma NoneReported(d: Disk, ins: Inodes, f: nat, inode: Inode, lo: nat, hi: nat, bs: nat)
    requires lo < hi && At(d, ins, PlaceOf(f, lo, Ptrs(bs))) == 0
    ensures !Reported(d, ins, f, inode, lo, hi, 0, bs)
  {
    hide At, PlaceOf, Indirect;
  }

  /**
   * When data is lost and yet reported written: a block past the indirect range is to be
   * added, or the last free block goes to the first block that needs the indirect one.
   */
  lemma SilentLoss(d: Disk, ins: Inodes, f: nat, inode: Inode, lo: nat, hi: nat, sb: nat, bs: nat)
    ensures Reported(d, ins, f, inode, lo, hi, sb, bs) && !Room(d, ins, f, inode, lo, hi, sb, bs) <==>
      || (Missing(d, ins, f, lo, hi, bs) + (if TableMissing(inode, lo, hi, bs) then 1 else 0) <= sb
          && exists i: nat :: lo <= i < hi && 12 + Ptrs(bs) <= i && At(d, ins, PlaceOf(f, i, Ptrs(bs))) == 0)
      || (TableMissing(inode, lo, hi, bs) && Missing(d, ins, f, lo, hi, bs) == sb
          && Missing(d, ins, f, PastDirect(lo), hi, bs) == 1)
  {
    hide At, PlaceOf, Indirect, Missing, TableMissing;
  }

  // ----- writing -----

  /** The blocks a write covers: from here ... */
  function FirstBlock(offset: nat, bs: nat): nat { if bs == 0 then 0 else offset / bs }

  /** ... to before here. */
  function EndBlock(offset: nat, n: nat, bs: nat): nat {
    if n == 0 || bs == 0 then FirstBlock(offset, bs) else (offset + n - 1) / bs + 1
  }

  function Prefix(data: seq<byte>, n: nat): seq<byte> { if n <= |data| then data[..n] else data }

  /** The next chunk, of `k` bytes, ends with its block or with the data. */
  lemma ChunkEnds(offset: nat, n: nat, done: nat, bs: nat, off: nat, k: nat)
    requires 0 < bs && done < n && off == (offset + done) % bs && k ==
      if bs - off > n - done then n - done else bs - off
    ensures 0 < k && off + k <= bs && (offset + done) / bs < EndBlock(offset, n, bs)
    ensures done + k < n ==> (offset + (done + k)) / bs == (offset + done) / bs + 1
    ensures done + k == n ==> EndBlock(offset, n, bs) == (offset + done) / bs + 1
  {
    var q := (offset + done) / bs;
    assert offset + done == q * bs + off;
    if done + k < n {
      assert (q + 1) * bs == q * bs + bs;
      DivisionIs(offset + (done + k), bs, q + 1, 0);
      QuotientAtLeast(offset + n - 1, bs, q);
    } else {
      DivisionIs(offset + n - 1, bs, q, off + k - 1);
    }
  }

  /** Every block of every other file is as it was; those of `f` hold the data written so far. */
  ghost predicate Written(d: Disk, ins: Inodes, d': Disk, ins': Inodes, bs: nat, f: nat, offset: nat, data: seq<byte>) {
    forall g: nat, j: nat :: Content(d', ins', g, j, bs) ==
      if g == f then Overlaid(Content(d, ins, g, j, bs), j, offset, data, bs) else Content(d, ins, g, j, bs)
  }

  /** Every other file is as it was. */
  ghost predicate OthersSame(d: Disk, ins: Inodes, d': Disk, ins': Inodes, bs: nat, f: nat) {
    forall g: nat, j: nat :: g != f ==> Content(d', ins', g, j, bs) == Content(d, ins, g, j, bs)
  }

  lemma WrittenNothing(d: Disk, ins: Inodes, bs: nat, f: nat, offset: nat)
    ensures Written(d, ins, d, ins, bs, f, offset, [])
  {
    hide Content, Overlaid;
    forall j: nat ensures Overlaid(Content(d, ins, f, j, bs), j, offset, [], bs) == Content(d, ins, f, j, bs) {
      OverlaidNothing(Content(d, ins, f, j, bs), j, offset, bs);
    }
  }

  lemma WrittenMore(d: Disk, ins: Inodes, d1: Disk, ins1: Inodes, d2: Disk, ins2: Inodes, bs: nat, f: nat,
                    offset: nat, data: seq<byte>, done: nat, n: nat, idx: nat, off: nat)
    requires 0 < bs && done + n <= |data| && idx == (offset + done) / bs && off == (offset + done) % bs && off + n <= bs
    requires forall j: nat :: |Content(d, ins, f, j, bs)| == bs
    requires Written(d, ins, d1, ins1, bs, f, offset, data[..done]) && OnlyBlock(d1, ins1, d2, ins2, bs, f, idx)
    requires Content(d2, ins2, f, idx, bs) == Patched(Content(d1, ins1, f, idx, bs), off, data[done..done + n])
    ensures Written(d, ins, d2, ins2, bs, f, offset, data[..done + n])
  {
    hide Content, Overlaid, At, Patched, PlaceOf;
    forall g: nat, j: nat ensures Content(d2, ins2, g, j, bs) ==
      if g == f then Overlaid(Content(d, ins, g, j, bs), j, offset, data[..done + n], bs) else Content(d, ins, g, j, bs)
    {
      if g == f {
        ChunkOverlaid(Content(d, ins, g, j, bs), j, offset, data, done, n, bs);
      }
    }
  }

  lemma OthersMore(d: Disk, ins: Inodes, d1: Disk, ins1: Inodes, d2: Disk, ins2: Inodes, bs: nat, f: nat, idx: nat)
    requires OthersSame(d, ins, d1, ins1, bs, f) && OnlyBlock(d1, ins1, d2, ins2, bs, f, idx)
    ensures OthersSame(d, ins, d2, ins2, bs, f)
  {
    hide Content, At, PlaceOf;
  }

  lemma HoleStays(d1: Disk, ins1: Inodes, d2: Disk, ins2: Inodes, bs: nat, f: nat, hole: nat, idx: nat)
    requires OnlyBlock(d1, ins1, d2, ins2, bs, f, idx) && hole != idx && At(d1, ins1, PlaceOf(f, hole, Ptrs(bs))) == 0
    ensures At(d2, ins2, PlaceOf(f, hole, Ptrs(bs))) == 0
  {
    hide At, PlaceOf, SameBut;
  }

  lemma ContentSizes(l: Layout, kind: map<nat, Use>, d: Disk, owned: set<nat>, free: seq<nat>, sbFree: nat, ins: Inodes,
                     f: nat)
    requires Good(l, kind, d, owned, free, sbFree, ins)
    ensures 0 < l.bs && forall j: nat :: |Content(d, ins, f, j, l.bs)| == l.bs
  {
    hide Padded, Counted, Claimed, At, PlaceOf, Trees;
  }

  /**
   * What a write of `data` does: `done` bytes are taken; `lost` tells that some
   * block of the range got no disk block although the write went on, in which
   * case `hole` is such a block.
   */
  ghost predicate Outcome(d: Disk, ins: Inodes, sb: nat, d': Disk, ins': Inodes, bs: nat, f: nat, inode: Inode,
                          offset: nat, data: seq<byte>, done: nat, lost: bool, hole: nat)
  {
    var lo, hi := FirstBlock(offset, bs), EndBlock(offset, |data|, bs);
    && done <= |data| && OthersSame(d, ins, d', ins', bs, f)
    && (done == |data| <==> Reported(d, ins, f, inode, lo, hi, sb, bs))
    && (done == |data| && !lost <==> Room(d, ins, f, inode, lo, hi, sb, bs))
    && (!lost ==> Written(d, ins, d', ins', bs, f, offset, Prefix(data, done)))
    && (lost ==> lo <= hole < hi && At(d', ins', PlaceOf(f, hole, Ptrs(bs))) == 0)
  }

  /** The state of the loop before block `next`. */
  ghost predicate Progress(d: Disk, ins: Inodes, sb: nat, d': Disk, ins': Inodes, sb': nat, bs: nat, f: nat,
                           inode: Inode, inode': Inode,
                           offset: nat, data: seq<byte>, done: nat, next: nat, lost: bool, hole: nat)
  {
    var lo, hi := FirstBlock(offset, bs), EndBlock(offset, |data|, bs);
    && done <= |data| && OthersSame(d, ins, d', ins', bs, f)
    && lo <= next && (if done < |data| then next == FirstBlock(offset + done, bs) && next < hi else next == hi)
    && (!lost ==> Written(d, ins, d', ins', bs, f, offset, Prefix(data, done)))
    && (Reported(d, ins, f, inode, lo, hi, sb, bs) <==> Reported(d', ins', f, inode', next, hi, sb', bs))
    && (!lost ==> (Room(d, ins, f, inode, lo, hi, sb, bs) <==> Room(d', ins', f, inode', next, hi, sb', bs)))
    && (lost ==>
          lo <= hole < next && At(d', ins', PlaceOf(f, hole, Ptrs(bs))) == 0
          && !Room(d, ins, f, inode, lo, hi, sb, bs))
  }

  lemma ProgressStarts(d: Disk, ins: Inodes, sb: nat, bs: nat, f: nat, inode: Inode, offset: nat, data: seq<byte>)
    requires 0 < bs
    ensures Progress(d, ins, sb, d, ins, sb, bs, f, inode, inode, offset, data, 0, FirstBlock(offset, bs), false, 0)
  {
    hide At, PlaceOf, Room, Reported, Content, Written;
    WrittenNothing(d, ins, bs, f, offset);
    assert Prefix(data, 0) == [];
    if 0 < |data| {
      var off := offset % bs;
      ChunkEnds(offset, |data|, 0, bs, off, if bs - off > |data| then |data| else bs - off);
    }
  }

  lemma RoomForNothing(d: Disk, ins: Inodes, f: nat, inode: Inode, hi: nat, sb: nat, bs: nat)
    ensures Room(d, ins, f, inode, hi, hi, sb, bs) && Reported(d, ins, f, inode, hi, hi, sb, bs)
  {
    hide At, PlaceOf;
  }

  lemma ProgressEnds(d: Disk, ins: Inodes, sb: nat, d': Disk, ins': Inodes, sb': nat, bs: nat, f: nat, inode: Inode,
                     inode': Inode,
                     offset: nat, data: seq<byte>, done: nat, next: nat, lost: bool, hole: nat)
    requires Progress(d, ins, sb, d', ins', sb', bs, f, inode, inode', offset, data, done, next, lost, hole)
      && done == |data|
    ensures Outcome(d, ins, sb, d', ins', bs, f, inode, offset, data, done, lost, hole)
  {
    hide At, PlaceOf, Room, Reported, Written, OthersSame, EndBlock;
    RoomForNothing(d', ins', f, inode', next, sb', bs);
  }

  /** The block at `next` could not be allocated: the write stops. */
  lemma ProgressStops(d: Disk, ins: Inodes, sb: nat, d': Disk, ins': Inodes, sb': nat, bs: nat, f: nat, inode: Inode,
                      inode': Inode,
                      offset: nat, data: seq<byte>, done: nat, next: nat, lost: bool, hole: nat)
    requires Progress(d, ins, sb, d', ins', sb', bs, f, inode, inode', offset, data, done, next, lost, hole)
      && done < |data|
    requires At(d', ins', PlaceOf(f, next, Ptrs(bs))) == 0 && !Reachable(inode', next, sb', bs) && sb' == 0
    ensures Outcome(d, ins, sb, d', ins', bs, f, inode, offset, data, done, lost, hole)
  {
    hide At, PlaceOf, Room, Reported, Written, OthersSame, EndBlock, Reachable;
    NoRoom(d', ins', f, inode', sb', next, EndBlock(offset, |data|, bs), bs);
    NoneReported(d', ins', f, inode', next, EndBlock(offset, |data|, bs), bs);
  }

  lemma ProgressGoesOn(d: Disk, ins: Inodes, sb: nat, d1: Disk, ins1: Inodes, sb1: nat, d2: Disk, ins2: Inodes,
                       sb2: nat,
                       bs: nat, f: nat, inode: Inode, inode1: Inode, inode2: Inode,
                       offset: nat, data: seq<byte>, done: nat, n: nat, next: nat, off: nat, lost: bool, hole: nat)
    requires 0 < bs && (forall j: nat :: |Content(d, ins, f, j, bs)| == bs) && 0 < Ptrs(bs)
    requires Progress(d, ins, sb, d1, ins1, sb1, bs, f, inode, inode1, offset, data, done, next, lost, hole)
    requires done < |data| && off == (offset + done) % bs && n ==
      if bs - off > |data| - done then |data| - done else bs - off
    requires Holds(ins1, f, inode1) && Holds(ins2, f, inode2) && OnlyBlock(d1, ins1, d2, ins2, bs, f, next)
    requires Content(d2, ins2, f, next, bs) == Patched(Content(d1, ins1, f, next, bs), off, data[done..done + n])
    requires At(d2, ins2, PlaceOf(f, next, Ptrs(bs))) != 0
    requires At(d1, ins1, PlaceOf(f, next, Ptrs(bs))) != 0 ==> sb2 == sb1 && inode2 == inode1
    requires At(d1, ins1, PlaceOf(f, next, Ptrs(bs))) == 0 ==>
      Reachable(inode1, next, sb1, bs) && sb2 == sb1 - 1 - NewTable(inode1, next)
      && (Indirect(inode2) == 0 <==> next < 12 && Indirect(inode1) == 0)
    ensures Progress(d, ins, sb, d2, ins2, sb2, bs, f, inode, inode2, offset, data, done + n, next + 1, lost, hole)
  {
    hide At, PlaceOf, Room, Reported, Written, OthersSame, EndBlock, Reachable, NewTable, Indirect, Content, OnlyBlock,
         Patched;
    ChunkEnds(offset, |data|, done, bs, off, n);
    if done + n < |data| {
      var off', left := (offset + (done + n)) % bs, |data| - (done + n);
      ChunkEnds(offset, |data|, done + n, bs, off', if bs - off' > left then left else bs - off');
    }
    OthersMore(d, ins, d1, ins1, d2, ins2, bs, f, next);
    ReportedStep(d1, ins1, f, inode1, sb1, d2, ins2, inode2, sb2, next, EndBlock(offset, |data|, bs), bs);
    if lost {
      HoleStays(d1, ins1, d2, ins2, bs, f, hole, next);
    } else {
      WrittenMore(d, ins, d1, ins1, d2, ins2, bs, f, offset, data, done, n, next, off);
      RoomStep(d1, ins1, f, inode1, sb1, d2, ins2, inode2, sb2, next, EndBlock(offset, |data|, bs), bs);
    }
  }

  /** The block at `next` was allocated but could not be attached: what was meant for it is lost. */
  lemma ProgressLoses(d: Disk, ins: Inodes, sb: nat, d1: Disk, ins1: Inodes, sb1: nat, d2: Disk, ins2: Inodes, sb2: nat,
                      bs: nat, f: nat, inode: Inode, inode1: Inode, inode2: Inode,
                      offset: nat, data: seq<byte>, done: nat, n: nat, next: nat, off: nat, lost: bool, hole: nat)
    requires 0 < bs && 0 < Ptrs(bs)
    requires Progress(d, ins, sb, d1, ins1, sb1, bs, f, inode, inode1, offset, data, done, next, lost, hole)
    requires done < |data| && off == (offset + done) % bs && n ==
      if bs - off > |data| - done then |data| - done else bs - off
    requires Holds(ins1, f, inode1) && Holds(ins2, f, inode2) && OnlyBlock(d1, ins1, d2, ins2, bs, f, next)
    requires At(d2, ins2, PlaceOf(f, next, Ptrs(bs))) == 0
    requires At(d1, ins1, PlaceOf(f, next, Ptrs(bs))) == 0 && !Reachable(inode1, next, sb1, bs)
    requires sb2 == sb1 - 1 && Indirect(inode2) == Indirect(inode1)
    ensures Progress(d, ins, sb, d2, ins2, sb2, bs, f, inode, inode2, offset, data, done + n, next + 1, true, next)
  {
    hide At, PlaceOf, Room, Written, OthersSame, EndBlock, Reachable, NewTable, Indirect, Content, OnlyBlock, Reported;
    ChunkEnds(offset, |data|, done, bs, off, n);
    if done + n < |data| {
      var off', left := (offset + (done + n)) % bs, |data| - (done + n);
      ChunkEnds(offset, |data|, done + n, bs, off', if bs - off' > left then left else bs - off');
    }
    OthersMore(d, ins, d1, ins1, d2, ins2, bs, f, next);
    NoRoom(d1, ins1, f, inode1, sb1, next, EndBlock(offset, |data|, bs), bs);
    ReportedStep(d1, ins1, f, inode1, sb1, d2, ins2, inode2, sb2, next, EndBlock(offset, |data|, bs), bs);
  }

  // ----- pointers and free blocks after a write -----

  /** The indirect block is there, or will be made when it is needed. */
  ghost predicate TableComes(d: Disk, ins: Inodes, f: nat, inode: Inode, lo: nat, hi: nat, sbFree: nat, bs: nat) {
    Indirect(inode) != 0 || Missing(d, ins, f, lo, hi, bs) < sbFree
  }

  /** How many blocks are free after `lo..hi` was written: none if the write had to stop. */
  ghost function FreeAfter(d: Disk, ins: Inodes, f: nat, inode: Inode, lo: nat, hi: nat, sbFree: nat, bs: nat): nat {
    var m := Missing(d, ins, f, lo, hi, bs);
    if Reported(d, ins, f, inode, lo, hi, sbFree, bs) then
      sbFree - m - (if TableMissing(inode, lo, hi, bs) && m < sbFree then 1 else 0)
    else 0
  }

  /** Pointers other than those of holes in `lo..hi` of file `f` are as they were. */
  ghost predicate PointersKept(d: Disk, ins: Inodes, d': Disk, ins': Inodes, bs: nat, f: nat, lo: nat, hi: nat) {
    forall g: nat, j: nat :: g != f || !(lo <= j < hi) || At(d, ins, PlaceOf(g, j, Ptrs(bs))) != 0 ==>
      At(d', ins', PlaceOf(g, j, Ptrs(bs))) == At(d, ins, PlaceOf(g, j, Ptrs(bs)))
  }

  /** Of the blocks `lo..to`, those are holes that were and could not be attached. */
  ghost predicate HolesAre(d: Disk, ins: Inodes, d': Disk, ins': Inodes, bs: nat, f: nat, lo: nat, to: nat,
                           comes: bool) {
    forall j: nat :: lo <= j < to ==>
      (At(d', ins', PlaceOf(f, j, Ptrs(bs))) == 0 <==>
       At(d, ins, PlaceOf(f, j, Ptrs(bs))) == 0 && !(j < 12 || (j < 12 + Ptrs(bs) && comes)))
  }

  predicate TableIs(inode: Inode, inode': Inode, lo: nat, to: nat, bs: nat, comes: bool) {
    Indirect(inode') == 0 <==> Indirect(inode) == 0 && !(TableMissing(inode, lo, to, bs) && comes)
  }

  /** The file holds the data written so far wherever it has a block. */
  ghost predicate WrittenWhere(d: Disk, ins: Inodes, d': Disk, ins': Inodes, bs: nat, f: nat, offset: nat,
                               data: seq<byte>) {
    forall j: nat :: Content(d', ins', f, j, bs) ==
      if At(d', ins', PlaceOf(f, j, Ptrs(bs))) == 0 then Content(d, ins, f, j, bs)
      else Overlaid(Content(d, ins, f, j, bs), j, offset, data, bs)
  }

  /** The first block a write did not come to. */
  function Reach(offset: nat, n: nat, done: nat, bs: nat): nat {
    if done < n then FirstBlock(offset + done, bs) else EndBlock(offset, n, bs)
  }

  /**
   * What a write leaves: it comes as far as blocks can be allocated and no further, and then
   * there are exactly so many free blocks, all other pointers are as they were, holes only
   * where blocks could not be attached, and the data wherever there is a block.
   */
  ghost predicate Effect(d: Disk, ins: Inodes, sb: nat, d': Disk, ins': Inodes, sb': nat, bs: nat, f: nat,
                         inode: Inode, inode': Inode, offset: nat, data: seq<byte>, done: nat) {
    var lo, to := FirstBlock(offset, bs), Reach(offset, |data|, done, bs);
    && Filled(d, ins, sb, d', ins', sb', bs, f, inode, inode', lo, to)
    && PointersKept(d, ins, d', ins', bs, f, lo, to)
    && WrittenWhere(d, ins, d', ins', bs, f, offset, Prefix(data, done))
    && (done < |data| ==>
          && lo <= to < EndBlock(offset, |data|, bs) && !Reported(d, ins, f, inode, lo, to + 1, sb, bs)
          && StopsAt(d', ins', sb', bs, f, offset, done))
  }

  /** The blocks `lo..to` have been gone through: free blocks, holes and table. */
  ghost predicate Filled(d: Disk, ins: Inodes, sb: nat, d': Disk, ins': Inodes, sb': nat, bs: nat, f: nat,
                         inode: Inode, inode': Inode, lo: nat, to: nat) {
    var comes := TableComes(d, ins, f, inode, lo, to, sb, bs);
    && Reported(d, ins, f, inode, lo, to, sb, bs) && sb' == FreeAfter(d, ins, f, inode, lo, to, sb, bs)
    && HolesAre(d, ins, d', ins', bs, f, lo, to, comes) && TableIs(inode, inode', lo, to, bs, comes)
  }

  /** The write stopped before a block, which is a hole, with no block left to allocate. */
  ghost predicate StopsAt(d: Disk, ins: Inodes, sb: nat, bs: nat, f: nat, offset: nat, done: nat) {
    && sb == 0 && At(d, ins, PlaceOf(f, FirstBlock(offset + done, bs), Ptrs(bs))) == 0
    && (done == 0 || (bs != 0 && (offset + done) % bs == 0))
  }

  /** Before block `next`: what is said of `next..hi` now is what was said of `lo..hi` at first. */
  ghost predicate Keeps(d: Disk, ins: Inodes, sb: nat, d': Disk, ins': Inodes, sb': nat, bs: nat, f: nat,
                        inode: Inode, inode': Inode, lo: nat, next: nat, hi: nat) {
    var comes := TableComes(d, ins, f, inode, lo, hi, sb, bs);
    && FreeAfter(d, ins, f, inode, lo, hi, sb, bs) == FreeAfter(d', ins', f, inode', next, hi, sb', bs)
    && (Reported(d, ins, f, inode, lo, hi, sb, bs) <==> Reported(d', ins', f, inode', next, hi, sb', bs))
    && (Reported(d, ins, f, inode, lo, hi, sb, bs) ==>
          && HolesAre(d, ins, d', ins', bs, f, lo, next, comes) && TableIs(inode, inode', lo, next, bs, comes)
          && (comes <==> TableComes(d', ins', f, inode', next, hi, sb', bs)))
  }

  /** The effect before block `next`, however far the write is to go. */
  ghost predicate EffectSoFar(d: Disk, ins: Inodes, sb: nat, d': Disk, ins': Inodes, sb': nat, bs: nat, f: nat,
                              inode: Inode, inode': Inode, offset: nat, data: seq<byte>, done: nat, next: nat) {
    var lo := FirstBlock(offset, bs);
    && (forall hi: nat :: next <= hi ==> Keeps(d, ins, sb, d', ins', sb', bs, f, inode, inode', lo, next, hi))
    && PointersKept(d, ins, d', ins', bs, f, lo, next)
    && WrittenWhere(d, ins, d', ins', bs, f, offset, Prefix(data, done))
    && (done < |data| ==> done == 0 || (bs != 0 && (offset + done) % bs == 0))
  }

  /** Block `lo` handled: what is said of the rest is what was said of all. */
  ghost predicate Handled(d: Disk, ins: Inodes, f: nat, inode: Inode, sb: nat, d': Disk, ins': Inodes, inode': Inode,
                          sb': nat, lo: nat, hi: nat, bs: nat) {
    && Holds(ins, f, inode) && Holds(ins', f, inode') && lo < hi && 0 < Ptrs(bs)
    && OnlyBlock(d, ins, d', ins', bs, f, lo)
    && (At(d', ins', PlaceOf(f, lo, Ptrs(bs))) != 0 <==>
        At(d, ins, PlaceOf(f, lo, Ptrs(bs))) != 0 || Reachable(inode, lo, sb, bs))
    && (if At(d, ins, PlaceOf(f, lo, Ptrs(bs))) != 0 then
          sb' == sb && inode' == inode && At(d', ins', PlaceOf(f, lo, Ptrs(bs))) == At(d, ins, PlaceOf(f, lo, Ptrs(bs)))
        else if Reachable(inode, lo, sb, bs) then
          sb' == sb - 1 - NewTable(inode, lo) && (Indirect(inode') == 0 <==> lo < 12 && Indirect(inode) == 0)
        else sb' == sb - 1 && Indirect(inode') == Indirect(inode))
  }

  lemma FreeStepsOn(d: Disk, ins: Inodes, f: nat, inode: Inode, sb: nat, d': Disk, ins': Inodes, inode': Inode,
                    sb': nat, lo: nat, hi: nat, bs: nat)
    requires Handled(d, ins, f, inode, sb, d', ins', inode', sb', lo, hi, bs)
    ensures FreeAfter(d, ins, f, inode, lo, hi, sb, bs) == FreeAfter(d', ins', f, inode', lo + 1, hi, sb', bs)
    ensures Reported(d, ins, f, inode, lo, hi, sb, bs) <==> Reported(d', ins', f, inode', lo + 1, hi, sb', bs)
    ensures Reported(d, ins, f, inode, lo, hi, sb, bs) ==>
      (TableComes(d, ins, f, inode, lo, hi, sb, bs) <==> TableComes(d', ins', f, inode', lo + 1, hi, sb', bs))
    ensures Reported(d, ins, f, inode, lo, hi, sb, bs) && At(d, ins, PlaceOf(f, lo, Ptrs(bs))) == 0 ==>
      (Reachable(inode, lo, sb, bs) <==>
       lo < 12 || (lo < 12 + Ptrs(bs) && TableComes(d, ins, f, inode, lo, hi, sb, bs)))
  {
    hide At, PlaceOf, SameBut, Indirect;
    MissingSame(d, ins, d', ins', f, lo, lo + 1, hi, bs);
    MissingSame(d, ins, d', ins', f, lo, PastDirect(lo + 1), hi, bs);
    if Indirect(inode) == 0 && 12 <= lo < 12 + Ptrs(bs) {
      NoTableNoBlock(d, ins, f, inode, lo, bs);
    }
    if Indirect(inode') == 0 && 12 <= lo + 1 < 12 + Ptrs(bs) {
      NoTableNoBlock(d', ins', f, inode', lo + 1, bs);
    }
  }

  lemma TableStepsOn(d: Disk, ins: Inodes, f: nat, inode: Inode, inode1: Inode, sb: nat, d': Disk, ins': Inodes,
                     inode': Inode, sb': nat, lo: nat, next: nat, hi: nat, bs: nat, comes: bool)
    requires Handled(d, ins, f, inode1, sb, d', ins', inode', sb', next, hi, bs) && lo <= next
    requires TableIs(inode, inode1, lo, next, bs, comes)
    requires At(d, ins, PlaceOf(f, next, Ptrs(bs))) == 0 ==>
      (Reachable(inode1, next, sb, bs) <==> next < 12 || (next < 12 + Ptrs(bs) && comes))
    ensures TableIs(inode, inode', lo, next + 1, bs, comes)
  {
    hide At, PlaceOf, SameBut, Indirect;
    if Indirect(inode1) == 0 && 12 <= next < 12 + Ptrs(bs) {
      NoTableNoBlock(d, ins, f, inode1, next, bs);
    }
  }

  lemma PointersMore(d: Disk, ins: Inodes, d1: Disk, ins1: Inodes, d2: Disk, ins2: Inodes, bs: nat, f: nat, lo: nat,
                     next: nat)
    requires PointersKept(d, ins, d1, ins1, bs, f, lo, next) && OnlyBlock(d1, ins1, d2, ins2, bs, f, next) && lo <= next
    requires At(d1, ins1, PlaceOf(f, next, Ptrs(bs))) != 0 ==>
      At(d2, ins2, PlaceOf(f, next, Ptrs(bs))) == At(d1, ins1, PlaceOf(f, next, Ptrs(bs)))
    ensures PointersKept(d, ins, d2, ins2, bs, f, lo, next + 1)
  {
    hide At, PlaceOf, SameBut;
  }

  lemma HolesMore(d: Disk, ins: Inodes, d1: Disk, ins1: Inodes, d2: Disk, ins2: Inodes, bs: nat, f: nat, lo: nat,
                  next: nat, comes: bool)
    requires HolesAre(d, ins, d1, ins1, bs, f, lo, next, comes) && OnlyBlock(d1, ins1, d2, ins2, bs, f, next)
    requires PointersKept(d, ins, d1, ins1, bs, f, lo, next)
    requires At(d2, ins2, PlaceOf(f, next, Ptrs(bs))) == 0 <==>
      At(d1, ins1, PlaceOf(f, next, Ptrs(bs))) == 0 && !(next < 12 || (next < 12 + Ptrs(bs) && comes))
    ensures HolesAre(d, ins, d2, ins2, bs, f, lo, next + 1, comes)
  {
    hide At, PlaceOf, SameBut;
  }

  /** Nothing of what was written so far lies in the next block. */
  lemma NotYet(b: Block, offset: nat, data: seq<byte>, done: nat, bs: nat)
    requires |b| == bs && 0 < bs && done < |data| && (done == 0 || (offset + done) % bs == 0)
    ensures Overlaid(b, (offset + done) / bs, offset, Prefix(data, done), bs) == b
  {
    var i := (offset + done) / bs;
    assert offset + done == i * bs + (offset + done) % bs;
    var o := Overlaid(b, i, offset, Prefix(data, done), bs);
    forall j | 0 <= j < bs ensures o[j] == b[j] {
    }
  }

  /** Another chunk: in its block if that could be had. */
  lemma WhereMore(d: Disk, ins: Inodes, d1: Disk, ins1: Inodes, d2: Disk, ins2: Inodes, bs: nat, f: nat,
                  offset: nat, data: seq<byte>, done: nat, n: nat, idx: nat, off: nat, j: nat)
    requires 0 < bs && done < |data| && done + n <= |data| && idx == (offset + done) / bs && off == (offset + done) % bs
      && off + n <= bs
    requires |Content(d, ins, f, j, bs)| == bs && (done == 0 || off == 0)
    requires WrittenWhere(d, ins, d1, ins1, bs, f, offset, Prefix(data, done))
      && OnlyBlock(d1, ins1, d2, ins2, bs, f, idx)
    requires At(d2, ins2, PlaceOf(f, idx, Ptrs(bs))) == 0 ==> At(d1, ins1, PlaceOf(f, idx, Ptrs(bs))) == 0
    requires Content(d2, ins2, f, idx, bs) ==
      if At(d2, ins2, PlaceOf(f, idx, Ptrs(bs))) != 0 then
          Patched(Content(d1, ins1, f, idx, bs), off, data[done..done + n])
      else Content(d1, ins1, f, idx, bs)
    ensures Content(d2, ins2, f, j, bs) ==
      if At(d2, ins2, PlaceOf(f, j, Ptrs(bs))) == 0 then Content(d, ins, f, j, bs)
      else Overlaid(Content(d, ins, f, j, bs), j, offset, Prefix(data, done + n), bs)
  {
    hide Content, Overlaid, At, Patched, PlaceOf;
    ChunkOverlaid(Content(d, ins, f, j, bs), j, offset, data, done, n, bs);
    if j == idx {
      NotYet(Content(d, ins, f, j, bs), offset, data, done, bs);
    }
  }

  lemma EffectStarts(d: Disk, ins: Inodes, sb: nat, bs: nat, f: nat, inode: Inode, offset: nat, data: seq<byte>)
    ensures EffectSoFar(d, ins, sb, d, ins, sb, bs, f, inode, inode, offset, data, 0, FirstBlock(offset, bs))
  {
    hide At, PlaceOf, Reported, Content, Overlaid, Missing;
    assert Prefix(data, 0) == [];
    forall j: nat ensures Overlaid(Content(d, ins, f, j, bs), j, offset, [], bs) == Content(d, ins, f, j, bs) {
      OverlaidNothing(Content(d, ins, f, j, bs), j, offset, bs);
    }
  }

  lemma KeepsOn(d: Disk, ins: Inodes, sb: nat, d1: Disk, ins1: Inodes, sb1: nat, d2: Disk, ins2: Inodes, sb2: nat,
                bs: nat, f: nat, inode: Inode, inode1: Inode, inode2: Inode, lo: nat, next: nat, hi: nat)
    requires Keeps(d, ins, sb, d1, ins1, sb1, bs, f, inode, inode1, lo, next, hi) && lo <= next
    requires PointersKept(d, ins, d1, ins1, bs, f, lo, next)
    requires Handled(d1, ins1, f, inode1, sb1, d2, ins2, inode2, sb2, next, hi, bs)
    ensures Keeps(d, ins, sb, d2, ins2, sb2, bs, f, inode, inode2, lo, next + 1, hi)
  {
    hide At, PlaceOf, Reported, Missing, Indirect, FreeAfter, TableComes, TableIs, HolesAre, PointersKept, Reachable,
         NewTable, OnlyBlock;
    var comes := TableComes(d, ins, f, inode, lo, hi, sb, bs);
    FreeStepsOn(d1, ins1, f, inode1, sb1, d2, ins2, inode2, sb2, next, hi, bs);
    if Reported(d, ins, f, inode, lo, hi, sb, bs) {
      TableStepsOn(d1, ins1, f, inode, inode1, sb1, d2, ins2, inode2, sb2, lo, next, hi, bs, comes);
      HolesMore(d, ins, d1, ins1, d2, ins2, bs, f, lo, next, comes);
    }
  }

  lemma EffectGoesOn(d: Disk, ins: Inodes, sb: nat, d1: Disk, ins1: Inodes, sb1: nat, d2: Disk, ins2: Inodes,
                     sb2: nat, bs: nat, f: nat, inode: Inode, inode1: Inode, inode2: Inode,
                     offset: nat, data: seq<byte>, done: nat, n: nat, next: nat, off: nat)
    requires 0 < bs && (forall j: nat :: |Content(d, ins, f, j, bs)| == bs) && done < |data|
      && next == (offset + done) / bs
    requires off == (offset + done) % bs && n == if bs - off > |data| - done then |data| - done else bs - off
    requires EffectSoFar(d, ins, sb, d1, ins1, sb1, bs, f, inode, inode1, offset, data, done, next)
    requires Handled(d1, ins1, f, inode1, sb1, d2, ins2, inode2, sb2, next, EndBlock(offset, |data|, bs), bs)
    requires Content(d2, ins2, f, next, bs) ==
      if At(d2, ins2, PlaceOf(f, next, Ptrs(bs))) != 0 then
          Patched(Content(d1, ins1, f, next, bs), off, data[done..done + n])
      else Content(d1, ins1, f, next, bs)
    requires FirstBlock(offset, bs) <= next
    ensures EffectSoFar(d, ins, sb, d2, ins2, sb2, bs, f, inode, inode2, offset, data, done + n, next + 1)
  {
    hide At, PlaceOf, Reported, Content, Overlaid, Missing, Patched, Indirect, FreeAfter, TableComes, TableIs, HolesAre,
         PointersKept, Reachable, NewTable, OnlyBlock, EndBlock, Keeps;
    var lo, after := FirstBlock(offset, bs), next + 1;
    forall hi: nat | after <= hi ensures Keeps(d, ins, sb, d2, ins2, sb2, bs, f, inode, inode2, lo, after, hi) {
      KeepsOn(d, ins, sb, d1, ins1, sb1, d2, ins2, sb2, bs, f, inode, inode1, inode2, lo, next, hi);
    }
    PointersMore(d, ins, d1, ins1, d2, ins2, bs, f, lo, next);
    ChunkEnds(offset, |data|, done, bs, off, n);
    forall j: nat ensures Content(d2, ins2, f, j, bs) ==
      if At(d2, ins2, PlaceOf(f, j, Ptrs(bs))) == 0 then Content(d, ins, f, j, bs)
      else Overlaid(Content(d, ins, f, j, bs), j, offset, Prefix(data, done + n), bs)
    {
      WhereMore(d, ins, d1, ins1, d2, ins2, bs, f, offset, data, done, n, next, off, j);
    }
    if done + n < |data| {
      assert (offset + (done + n)) % bs == 0 by { ChunkAligned(offset + done, bs, off, n); }
    }
  }

  lemma ChunkAligned(a: nat, bs: nat, off: nat, n: nat)
    requires 0 < bs && off == a % bs && n == bs - off
    ensures (a + n) % bs == 0
  {
    assert (a / bs + 1) * bs == a / bs * bs + bs;
    DivisionIs(a + n, bs, a / bs + 1, 0);
  }

  lemma EffectEnds(d: Disk, ins: Inodes, sb: nat, d': Disk, ins': Inodes, sb': nat, bs: nat, f: nat, inode: Inode,
                   inode': Inode, offset: nat, data: seq<byte>, done: nat, next: nat)
    requires EffectSoFar(d, ins, sb, d', ins', sb', bs, f, inode, inode', offset, data, done, next)
    requires if done == |data| then next == EndBlock(offset, |data|, bs)
             else
               && FirstBlock(offset, bs) <= next == FirstBlock(offset + done, bs) < EndBlock(offset, |data|, bs)
               && sb' == 0 && done < |data| && At(d', ins', PlaceOf(f, next, Ptrs(bs))) == 0
    ensures Effect(d, ins, sb, d', ins', sb', bs, f, inode, inode', offset, data, done)
  {
    hide At, PlaceOf, Content, Overlaid, Indirect, EndBlock, HolesAre, TableIs, WrittenWhere, PointersKept, TableComes;
    var lo := FirstBlock(offset, bs);
    assert Keeps(d, ins, sb, d', ins', sb', bs, f, inode, inode', lo, next, next);
    RoomForNothing(d', ins', f, inode', next, sb', bs);
    if done < |data| {
      assert Keeps(d, ins, sb, d', ins', sb', bs, f, inode, inode', lo, next, next + 1);
      NoneReported(d', ins', f, inode', next, next + 1, bs);
    }
  }

  lemma {:induction false} MissingSplits(d: Disk, ins: Inodes, f: nat, lo: nat, mid: nat, hi: nat, bs: nat)
    requires lo <= mid <= hi
    ensures Missing(d, ins, f, lo, hi, bs) == Missing(d, ins, f, lo, mid, bs) + Missing(d, ins, f, mid, hi, bs)
    decreases hi - lo
  {
    hide At, PlaceOf;
    if lo < mid {
      MissingSplits(d, ins, f, lo + 1, mid, hi, bs);
    }
  }

  lemma {:induction false} MissingMost(d: Disk, ins: Inodes, f: nat, lo: nat, to: nat, hi: nat, bs: nat)
    requires to <= hi
    ensures Missing(d, ins, f, lo, to, bs) <= Missing(d, ins, f, lo, hi, bs)
  {
    hide At, PlaceOf;
    if lo <= to {
      MissingSplits(d, ins, f, lo, to, hi, bs);
    }
  }

  /** Where a write could go far it could go less far. */
  lemma ReportedLess(d: Disk, ins: Inodes, f: nat, inode: Inode, lo: nat, to: nat, hi: nat, sb: nat, bs: nat)
    requires Reported(d, ins, f, inode, lo, hi, sb, bs) && lo <= to <= hi
    ensures Reported(d, ins, f, inode, lo, to, sb, bs)
  {
    hide At, PlaceOf, Indirect, Missing;
    MissingSplits(d, ins, f, lo, to, hi, bs);
    MissingMost(d, ins, f, PastDirect(lo), to, hi, bs);
    if PastDirect(lo) <= to {
      MissingSplits(d, ins, f, PastDirect(lo), to, hi, bs);
      MissingSplits(d, ins, f, lo, PastDirect(lo), to, bs);
    }
  }

  /** So the volume before a write that comes short determines the block it stops at, and the count. */
  lemma StopsOnce(d: Disk, ins: Inodes, sb: nat, bs: nat, f: nat, inode: Inode, offset: nat, data: seq<byte>,
                  d1: Disk, ins1: Inodes, sb1: nat, inode1: Inode, done1: nat,
                  d2: Disk, ins2: Inodes, sb2: nat, inode2: Inode, done2: nat)
    requires 0 < bs && Effect(d, ins, sb, d1, ins1, sb1, bs, f, inode, inode1, offset, data, done1) && done1 <= |data|
      && Effect(d, ins, sb, d2, ins2, sb2, bs, f, inode, inode2, offset, data, done2) && done2 <= |data|
    ensures done1 == done2 && sb1 == sb2 && (Indirect(inode1) == 0 <==> Indirect(inode2) == 0)
    ensures forall j: nat :: FirstBlock(offset, bs) <= j < Reach(offset, |data|, done1, bs) ==>
      (At(d1, ins1, PlaceOf(f, j, Ptrs(bs))) == 0 <==> At(d2, ins2, PlaceOf(f, j, Ptrs(bs))) == 0)
  {
    hide At, PlaceOf, Indirect, Missing, Reported, FreeAfter, TableComes, PointersKept, WrittenWhere, EndBlock;
    var lo, to1, to2 := FirstBlock(offset, bs), Reach(offset, |data|, done1, bs), Reach(offset, |data|, done2, bs);
    EndAfter(offset, |data|, bs);
    if done1 < |data| && to1 < to2 {
      ReportedLess(d, ins, f, inode, lo, to1 + 1, to2, sb, bs);
    }
    if done2 < |data| && to2 < to1 {
      ReportedLess(d, ins, f, inode, lo, to2 + 1, to1, sb, bs);
    }
    if done1 < |data| && done2 < |data| {
      SameStop(offset, done1, done2, bs);
    }
  }

  lemma EndAfter(offset: nat, n: nat, bs: nat)
    requires 0 < bs
    ensures FirstBlock(offset, bs) <= EndBlock(offset, n, bs)
  {
    if n > 0 {
      Quotients(offset, offset + n - 1, bs);
    }
  }

  lemma Quotients(a: nat, b: nat, n: nat)
    requires 0 < n && a <= b
    ensures a / n <= b / n
  {
    QuotientAtLeast(b, n, a / n);
  }

  /** A write stops at its start or where a block starts. */
  lemma SameStop(offset: nat, a: nat, b: nat, bs: nat)
    requires 0 < bs && FirstBlock(offset + a, bs) == FirstBlock(offset + b, bs)
    requires (a == 0 || (offset + a) % bs == 0) && (b == 0 || (offset + b) % bs == 0)
    ensures a == b
  {
    var i := (offset + a) / bs;
    assert offset + a == i * bs + (offset + a) % bs && offset + b == i * bs + (offset + b) % bs;
  }

  /** Every pointer and every block is the same. */
  ghost predicate AllSame(d: Disk, ins: Inodes, d': Disk, ins': Inodes, bs: nat) {
    && (forall g: nat, j: nat :: At(d', ins', PlaceOf(g, j, Ptrs(bs))) == At(d, ins, PlaceOf(g, j, Ptrs(bs))))
    && (forall g: nat, j: nat :: Content(d', ins', g, j, bs) == Content(d, ins, g, j, bs))
  }

  lemma UnseenSame(d: Disk, ins: Inodes, d': Disk, ins': Inodes, bs: nat)
    requires Unseen(d, ins, d', ins', bs)
    ensures AllSame(d, ins, d', ins', bs)
  {
    hide At, PlaceOf, Content, Unseen, OnlyBlock;
    forall g: nat, j: nat ensures
      && At(d', ins', PlaceOf(g, j, Ptrs(bs))) == At(d, ins, PlaceOf(g, j, Ptrs(bs)))
      && Content(d', ins', g, j, bs) == Content(d, ins, g, j, bs)
    {
      UnseenElsewhere(d, ins, d', ins', bs, g, j);
    }
  }

  lemma PointersSame(d: Disk, ins: Inodes, d1: Disk, ins1: Inodes, d2: Disk, ins2: Inodes, bs: nat, f: nat, lo: nat,
                     hi: nat, comes: bool)
    requires AllSame(d1, ins1, d2, ins2, bs)
    ensures PointersKept(d, ins, d1, ins1, bs, f, lo, hi) ==> PointersKept(d, ins, d2, ins2, bs, f, lo, hi)
    ensures HolesAre(d, ins, d1, ins1, bs, f, lo, hi, comes) ==> HolesAre(d, ins, d2, ins2, bs, f, lo, hi, comes)
  {
    hide At, PlaceOf, Content;
  }

  lemma WhereSame(d: Disk, ins: Inodes, d1: Disk, ins1: Inodes, d2: Disk, ins2: Inodes, bs: nat, f: nat, offset: nat,
                  data: seq<byte>)
    requires AllSame(d1, ins1, d2, ins2, bs) && WrittenWhere(d, ins, d1, ins1, bs, f, offset, data)
    ensures WrittenWhere(d, ins, d2, ins2, bs, f, offset, data)
  {
    hide At, PlaceOf, Content, Overlaid;
  }

  lemma EffectKept(d: Disk, ins: Inodes, sb: nat, d1: Disk, ins1: Inodes, d2: Disk, ins2: Inodes, sb': nat, bs: nat,
                   f: nat, inode: Inode, inode1: Inode, inode2: Inode, offset: nat, data: seq<byte>, done: nat)
    requires Effect(d, ins, sb, d1, ins1, sb', bs, f, inode, inode1, offset, data, done)
      && Unseen(d1, ins1, d2, ins2, bs) && Indirect(inode2) == Indirect(inode1)
    ensures Effect(d, ins, sb, d2, ins2, sb', bs, f, inode, inode2, offset, data, done)
  {
    hide At, PlaceOf, Reported, Content, Missing, Indirect, FreeAfter, TableComes, Unseen, PointersKept, HolesAre,
         WrittenWhere;
    var lo, to := FirstBlock(offset, bs), Reach(offset, |data|, done, bs);
    UnseenSame(d1, ins1, d2, ins2, bs);
    PointersSame(d, ins, d1, ins1, d2, ins2, bs, f, lo, to, TableComes(d, ins, f, inode, lo, to, sb, bs));
    WhereSame(d, ins, d1, ins1, d2, ins2, bs, f, offset, Prefix(data, done));
    assert At(d2, ins2, PlaceOf(f, FirstBlock(offset + done, bs), Ptrs(bs)))
      == At(d1, ins1, PlaceOf(f, FirstBlock(offset + done, bs), Ptrs(bs)));
  }

  /** i_blocks counts one block more for every hole of `lo..to`. */
  ghost predicate SectorsCounted(d: Disk, ins: Inodes, bs: nat, f: nat, inode: Inode, inode': Inode, lo: nat, to: nat) {
    SectorsOf(inode') == (SectorsOf(inode) + Missing(d, ins, f, lo, to, bs) * (bs / 512)) % 0x1_0000_0000
  }

  /** The same while the blocks from `next` on are still to come. */
  ghost predicate Tallied(d: Disk, ins: Inodes, d': Disk, ins': Inodes, bs: nat, f: nat, inode: Inode, inode': Inode,
                          lo: nat, next: nat) {
    forall hi: nat :: next <= hi ==>
      (SectorsOf(inode') + Missing(d', ins', f, next, hi, bs) * (bs / 512)) % 0x1_0000_0000
      == (SectorsOf(inode) + Missing(d, ins, f, lo, hi, bs) * (bs / 512)) % 0x1_0000_0000
  }

  lemma TallyMore(d: Disk, ins: Inodes, d1: Disk, ins1: Inodes, d2: Disk, ins2: Inodes, bs: nat, f: nat, inode: Inode,
                  inode1: Inode, inode2: Inode, lo: nat, next: nat)
    requires Tallied(d, ins, d1, ins1, bs, f, inode, inode1, lo, next) && OnlyBlock(d1, ins1, d2, ins2, bs, f, next)
    requires if At(d1, ins1, PlaceOf(f, next, Ptrs(bs))) == 0 then SectorsOf(inode2) == MoreSectors(inode1, bs)
             else inode2 == inode1
    ensures Tallied(d, ins, d2, ins2, bs, f, inode, inode2, lo, next + 1)
  {
    hide At, PlaceOf, SectorsOf, OnlyBlock, Missing, MoreSectors;
    var after := next + 1;
    forall hi: nat | after <= hi
      ensures (SectorsOf(inode2) + Missing(d2, ins2, f, after, hi, bs) * (bs / 512)) % 0x1_0000_0000
        == (SectorsOf(inode) + Missing(d, ins, f, lo, hi, bs) * (bs / 512)) % 0x1_0000_0000
    {
      TallyOne(d1, ins1, d2, ins2, bs, f, inode1, inode2, next, hi);
    }
  }

  lemma TallyOne(d: Disk, ins: Inodes, d': Disk, ins': Inodes, bs: nat, f: nat, inode: Inode, inode': Inode, next: nat,
                 hi: nat)
    requires OnlyBlock(d, ins, d', ins', bs, f, next) && next < hi
    requires if At(d, ins, PlaceOf(f, next, Ptrs(bs))) == 0 then SectorsOf(inode') == MoreSectors(inode, bs)
             else inode' == inode
    ensures (SectorsOf(inode') + Missing(d', ins', f, next + 1, hi, bs) * (bs / 512)) % 0x1_0000_0000
         == (SectorsOf(inode) + Missing(d, ins, f, next, hi, bs) * (bs / 512)) % 0x1_0000_0000
  {
    hide At, PlaceOf, SectorsOf, OnlyBlock;
    MissingSame(d, ins, d', ins', f, next, next + 1, hi, bs);
    if At(d, ins, PlaceOf(f, next, Ptrs(bs))) == 0 {
      OneMoreBlock(SectorsOf(inode), Missing(d', ins', f, next + 1, hi, bs), bs / 512);
    }
  }

  lemma OneMoreBlock(s: nat, m: nat, u: nat)
    ensures ((s + u) % 0x1_0000_0000 + m * u) % 0x1_0000_0000 == (s + (m + 1) * u) % 0x1_0000_0000
  {
    var x := m * u;
    assert (m + 1) * u == x + u;
    SumWraps(s + u, x);
  }

  lemma SumWraps(a: nat, b: nat)
    ensures (a % 0x1_0000_0000 + b) % 0x1_0000_0000 == (a + b) % 0x1_0000_0000
  {
  }

  lemma TallyEnds(d: Disk, ins: Inodes, d': Disk, ins': Inodes, bs: nat, f: nat, inode: Inode, inode': Inode, lo: nat,
                  next: nat)
    requires Tallied(d, ins, d', ins', bs, f, inode, inode', lo, next)
    ensures SectorsCounted(d, ins, bs, f, inode, inode', lo, next)
  {
    hide SectorsOf;
    SectorsFit(inode');
    assert Missing(d', ins', f, next, next, bs) == 0;
    assert next <= next;
  }

  /** The loop of ext2_write_file. */
  method WriteBlocks(fs: Volume, inode: Inode, offset: nat, data: seq<byte>, ghost f: nat)
    returns (inode': Inode, done: nat, ghost lost: bool, ghost hole: nat)
    requires fs.Valid() && Holds(fs.ins, f, inode) && fs.Stored(f)
    modifies fs`disk, fs`groupFree, fs`sbFree, fs`blockBuf, fs`indBuf, fs`owned, fs`ins
    ensures fs.Valid() && fs.Stored(f) && fs.ins == old(fs.ins)[f := inode'] && SameKind(inode', inode)
    ensures Outcome(old(fs.disk), old(fs.ins), old(fs.sbFree), fs.disk, fs.ins, fs.layout.bs, f, inode, offset, data,
                    done, lost, hole)
    ensures Effect(old(fs.disk), old(fs.ins), old(fs.sbFree), fs.disk, fs.ins, fs.sbFree, fs.layout.bs, f, inode,
                   inode',
                   offset, data, done)
    ensures SectorsCounted(old(fs.disk), old(fs.ins), fs.layout.bs, f, inode, inode', FirstBlock(offset, fs.layout.bs),
                           Reach(offset, |data|, done, fs.layout.bs))
  {
    hide Good, OnlyBlock, At, PlaceOf, StoredBut, SizeOf, ModeOf, Reachable, NewTable, Indirect, Patched, Content,
         Progress, Outcome, Effect, EffectSoFar, Tallied, SectorsOf, SectorsCounted;
    var bs := fs.layout.bs;
    ghost var d0, ins0, sb0 := fs.disk, fs.ins, fs.sbFree;
    ContentSizes(fs.layout, fs.kind, fs.disk, fs.owned, fs.groupFree, fs.sbFree, fs.ins, f);
    ProgressStarts(d0, ins0, sb0, bs, f, inode, offset, data);
    EffectStarts(d0, ins0, sb0, bs, f, inode, offset, data);
    assert Tallied(d0, ins0, d0, ins0, bs, f, inode, inode, FirstBlock(offset, bs), FirstBlock(offset, bs)) by {
      TallyStarts(d0, ins0, bs, f, inode, FirstBlock(offset, bs));
    }
    inode', done, lost, hole := inode, 0, false, 0;
    ghost var next: nat := FirstBlock(offset, bs);
    assert ins0 == ins0[f := inode];
    while done < |data|
      invariant fs.Valid() && fs.Stored(f) && Holds(fs.ins, f, inode') && fs.ins == ins0[f := inode']
        && SameKind(inode', inode)
      invariant done <= |data|
      invariant Progress(d0, ins0, sb0, fs.disk, fs.ins, fs.sbFree, bs, f, inode, inode', offset, data, done, next,
                         lost, hole)
      invariant EffectSoFar(d0, ins0, sb0, fs.disk, fs.ins, fs.sbFree, bs, f, inode, inode', offset, data, done, next)
      invariant Tallied(d0, ins0, fs.disk, fs.ins, bs, f, inode, inode', FirstBlock(offset, bs), next)
    {
      var idx, off := (offset + done) / bs, (offset + done) % bs;
      var n: nat := bs - off;
      if n > |data| - done {
        n := |data| - done;
      }
      ghost var d1, ins1, sb1, inode1 := fs.disk, fs.ins, fs.sbFree, inode';
      NextIs(d0, ins0, sb0, d1, ins1, sb1, bs, f, inode, inode1, offset, data, done, next, lost, hole);
      assert next == idx;
      var stored;
      inode', stored := fs.StoreChunk(inode', idx, off, data[done..done + n], f);
      assert fs.ins == ins0[f := inode'];
      if !stored {
        NeedsRoom(inode1, idx, bs);
        ProgressStops(d0, ins0, sb0, d1, ins1, sb1, bs, f, inode, inode1, offset, data, done, next, lost, hole);
        EffectEnds(d0, ins0, sb0, d1, ins1, sb1, bs, f, inode, inode1, offset, data, done, next);
        TallyEnds(d0, ins0, d1, ins1, bs, f, inode, inode1, FirstBlock(offset, bs), next);
        return;
      }
      TallyMore(d0, ins0, d1, ins1, fs.disk, fs.ins, bs, f, inode, inode1, inode', FirstBlock(offset, bs), next);
      EffectGoesOn(d0, ins0, sb0, d1, ins1, sb1, fs.disk, fs.ins, fs.sbFree, bs, f, inode, inode1, inode', offset,
                   data, done, n, next, off);
      if fs.Pointer(f, idx) != 0 {
        ProgressGoesOn(d0, ins0, sb0, d1, ins1, sb1, fs.disk, fs.ins, fs.sbFree, bs, f, inode, inode1, inode', offset,
                       data, done, n, next, off, lost, hole);
      } else {
        ProgressLoses(d0, ins0, sb0, d1, ins1, sb1, fs.disk, fs.ins, fs.sbFree, bs, f, inode, inode1, inode', offset,
                      data, done, n, next, off, lost, hole);
        lost, hole := true, next;
      }
      next := next + 1;
      done := done + n;
    }
    NextIs(d0, ins0, sb0, fs.disk, fs.ins, fs.sbFree, bs, f, inode, inode', offset, data, done, next, lost, hole);
    ProgressEnds(d0, ins0, sb0, fs.disk, fs.ins, fs.sbFree, bs, f, inode, inode', offset, data, done, next, lost, hole);
    EffectEnds(d0, ins0, sb0, fs.disk, fs.ins, fs.sbFree, bs, f, inode, inode', offset, data, done, next);
    TallyEnds(d0, ins0, fs.disk, fs.ins, bs, f, inode, inode', FirstBlock(offset, bs), next);
  }

  lemma TallyStarts(d: Disk, ins: Inodes, bs: nat, f: nat, inode: Inode, lo: nat)
    ensures Tallied(d, ins, d, ins, bs, f, inode, inode, lo, lo)
  {
    hide SectorsOf, Missing;
  }

  lemma NextIs(d: Disk, ins: Inodes, sb: nat, d': Disk, ins': Inodes, sb': nat, bs: nat, f: nat, inode: Inode,
               inode': Inode,
               offset: nat, data: seq<byte>, done: nat, next: nat, lost: bool, hole: nat)
    requires Progress(d, ins, sb, d', ins', sb', bs, f, inode, inode', offset, data, done, next, lost, hole)
      && 0 < bs
    ensures if done < |data| then
        next == (offset + done) / bs && FirstBlock(offset, bs) <= next < EndBlock(offset, |data|, bs)
            else next == EndBlock(offset, |data|, bs)
  {
    hide At, PlaceOf, Room, Reported, Written, OthersSame, EndBlock;
  }

  lemma OutcomeKept(d: Disk, ins: Inodes, sb: nat, d1: Disk, ins1: Inodes, d2: Disk, ins2: Inodes, bs: nat, f: nat,
                    inode: Inode,
                    offset: nat, data: seq<byte>, done: nat, lost: bool, hole: nat)
    requires Outcome(d, ins, sb, d1, ins1, bs, f, inode, offset, data, done, lost, hole)
      && Unseen(d1, ins1, d2, ins2, bs)
    ensures Outcome(d, ins, sb, d2, ins2, bs, f, inode, offset, data, done, lost, hole)
  {
    hide At, PlaceOf, Room, Reported, EndBlock, Content, Overlaid;
    UnseenElsewhere(d1, ins1, d2, ins2, bs, f, hole);
  }

  function Max(a: int, b: int): int { if a < b then b else a }

  /** The end of ext2_write_file: the new size, the inode, the counters. */
  method Finish(fs: Volume, f: nat, inode: Inode, newEnd: nat) returns (inode': Inode)
    requires fs.Valid() && Holds(fs.ins, f, inode) && fs.Stored(f) && fs.Mounted() && newEnd < 0x1_0000_0000
    modifies fs`disk, fs`blockBuf, fs`ins
    ensures fs.Valid() && fs.AllStored() && fs.ins == old(fs.ins)[f := inode']
      && SizeOf(inode') == Max(SizeOf(inode), newEnd) && ModeOf(inode') == ModeOf(inode)
      && Indirect(inode') == Indirect(inode) && SectorsOf(inode') == SectorsOf(inode)
    ensures Unseen(old(fs.disk), old(fs.ins), fs.disk, fs.ins, fs.layout.bs)
      && fs.Synced()
  {
    hide VolumeOk, Trees, StoredBut, SizeOf, ModeOf, WithSize, Unseen, Flushed, Slot, SectorsOf;
    ghost var d, ins := fs.disk, fs.ins;
    inode' := inode;
    if newEnd > SizeOf(inode) {
      inode' := WithSize(inode, newEnd);
    }
    forall k | 0 <= k < 15 ensures Slot(inode', k) == Slot(inode, k) {
      SizeUpdates(inode, newEnd, k);
    }
    SizeUpdates(inode, newEnd, 0);
    FieldStep(fs.layout, fs.kind, fs.disk, fs.owned, fs.groupFree, fs.sbFree, ins, f, inode');
    FieldStored(fs.layout, fs.kind, fs.disk, ins, f, inode');
    fs.ins := ins[f := inode'];
    var ok := fs.WriteInode(inode', f);
    UnseenTrans(d, ins, d, fs.ins, fs.disk, fs.ins, fs.layout.bs);
    ghost var d1 := fs.disk;
    fs.Flush(0);
    UnseenTrans(d, ins, d1, fs.ins, fs.disk, fs.ins, fs.layout.bs);
  }

  /**
   * ext2_write_file. When the range has room, the file holds `data` at `offset`, its
   * size covers it, and inode and counters are on disk. When the disk runs full, the
   * count of bytes written (or -1) is returned and the inode is not written back.
   */
  method WriteFile(fs: Volume, f: nat, inode: Inode, offset: nat, data: seq<byte>)
    returns (inode': Inode, r: int, ghost done: nat, ghost lost: bool, ghost hole: nat)
    requires fs.Valid() && Holds(fs.ins, f, inode) && fs.Stored(f) && fs.Mounted()
    requires offset + |data| < 0x1_0000_0000 && |data| < 0x8000_0000
    modifies fs`disk, fs`groupFree, fs`sbFree, fs`blockBuf, fs`indBuf, fs`owned, fs`ins
    ensures fs.Valid() && fs.ins == old(fs.ins)[f := inode']
    ensures Outcome(old(fs.disk), old(fs.ins), old(fs.sbFree), fs.disk, fs.ins, fs.layout.bs, f, inode, offset, data,
                    done, lost, hole)
    ensures Effect(old(fs.disk), old(fs.ins), old(fs.sbFree), fs.disk, fs.ins, fs.sbFree, fs.layout.bs, f, inode,
                   inode',
                   offset, data, done)
    ensures SectorsCounted(old(fs.disk), old(fs.ins), fs.layout.bs, f, inode, inode', FirstBlock(offset, fs.layout.bs),
                           Reach(offset, |data|, done, fs.layout.bs))
    ensures r == if 0 < done || |data| == 0 then done else -1
    ensures done == |data| ==> SizeOf(inode') == Max(SizeOf(inode), offset + |data|) && fs.AllStored()
    ensures done == |data| ==> fs.Synced()
    ensures done < |data| ==> SizeOf(inode') == SizeOf(inode) && fs.Stored(f)
  {
    hide Good, StoredBut, SizeOf, ModeOf, Outcome, Unseen, Flushed, Effect, Indirect, SectorsOf, Missing;
    var taken;
    inode', taken, lost, hole := WriteBlocks(fs, inode, offset, data, f);
    done := taken;
    OutcomeBound(old(fs.disk), old(fs.ins), old(fs.sbFree), fs.disk, fs.ins, fs.layout.bs, f, inode, offset, data, done,
                 lost, hole);
    if taken < |data| {
      return inode', if taken > 0 then taken else -1, done, lost, hole;
    }
    ghost var d1, ins1, inode1 := fs.disk, fs.ins, inode';
    inode' := Finish(fs, f, inode', offset + taken);
    EffectKept(old(fs.disk), old(fs.ins), old(fs.sbFree), d1, ins1, fs.disk, fs.ins, fs.sbFree, fs.layout.bs, f, inode,
               inode1, inode', offset, data, done);
    OutcomeKept(old(fs.disk), old(fs.ins), old(fs.sbFree), d1, ins1, fs.disk, fs.ins, fs.layout.bs, f, inode, offset,
                data, done, lost, hole);
    assert fs.ins == old(fs.ins)[f := inode'];
    r := taken;
  }

  lemma OutcomeBound(d: Disk, ins: Inodes, sb: nat, d': Disk, ins': Inodes, bs: nat, f: nat, inode: Inode,
                     offset: nat, data: seq<byte>, done: nat, lost: bool, hole: nat)
    requires Outcome(d, ins, sb, d', ins', bs, f, inode, offset, data, done, lost, hole)
    ensures done <= |data|
  {
    hide At, PlaceOf, Room, Reported, EndBlock, Written, OthersSame;
  }

  // ----- files as byte strings -----

  /** The byte at position `k` of the file, whether or not the size covers it. */
  ghost function ByteAt(d: Disk, ins: Inodes, f: nat, k: nat, bs: nat): byte {
    if bs == 0 || |Content(d, ins, f, k / bs, bs)| != bs then 0 else Content(d, ins, f, k / bs, bs)[k % bs]
  }

  /** The file. */
  ghost function File(d: Disk, ins: Inodes, f: nat, bs: nat): (r: seq<byte>)
    ensures forall k :: 0 <= k < |r| ==> r[k] == ByteAt(d, ins, f, k, bs)
    ensures f in ins ==> |r| == SizeOf(ins[f])
  {
    if f in ins then seq(SizeOf(ins[f]), k requires 0 <= k => ByteAt(d, ins, f, k, bs)) else []
  }

  /** What lies beyond the size is zero. */
  ghost predicate CleanTail(d: Disk, ins: Inodes, f: nat, bs: nat) {
    forall k: nat :: |File(d, ins, f, bs)| <= k ==> ByteAt(d, ins, f, k, bs) == 0
  }

  /** `old` with `data` written over it at `offset`, and zeros in any gap. */
  function Overlay(before: seq<byte>, offset: nat, data: seq<byte>): seq<byte> {
    seq(Max(|before|, offset + |data|), k requires 0 <= k =>
      if offset <= k < offset + |data| then data[k - offset] else if k < |before| then before[k] else 0)
  }

  lemma WrittenByte(d: Disk, ins: Inodes, d': Disk, ins': Inodes, bs: nat, f: nat, offset: nat, data: seq<byte>, k: nat)
    requires 0 < bs && Written(d, ins, d', ins', bs, f, offset, data)
      && forall j: nat :: |Content(d, ins, f, j, bs)| == bs
    ensures ByteAt(d', ins', f, k, bs) ==
      if offset <= k < offset + |data| then data[k - offset] else ByteAt(d, ins, f, k, bs)
  {
    hide Content;
    var b := Content(d, ins, f, k / bs, bs);
    assert k == k / bs * bs + k % bs;
    assert Overlaid(b, k / bs, offset, data, bs)[k % bs] == NewByte(b, k / bs, k % bs, offset, data, bs);
  }

  /** Writing a file is overlaying its bytes; the gap is zeros, and so is what lies beyond the end. */
  lemma WriteIsOverlay(d: Disk, ins: Inodes, d': Disk, ins': Inodes, bs: nat, f: nat, offset: nat, data: seq<byte>)
    requires 0 < bs && f in ins && f in ins' && SizeOf(ins'[f]) == Max(SizeOf(ins[f]), offset + |data|)
    requires Written(d, ins, d', ins', bs, f, offset, data) && (forall j: nat :: |Content(d, ins, f, j, bs)| == bs)
    requires CleanTail(d, ins, f, bs)
    ensures File(d', ins', f, bs) == Overlay(File(d, ins, f, bs), offset, data) && CleanTail(d', ins', f, bs)
  {
    hide Content, Written, SizeOf, ByteAt;
    forall k: nat
      ensures ByteAt(d', ins', f, k, bs) ==
              if offset <= k < offset + |data| then data[k - offset] else ByteAt(d, ins, f, k, bs)
    {
      WrittenByte(d, ins, d', ins', bs, f, offset, data, k);
    }
  }

  /** Every other file reads as before. */
  lemma OthersRead(d: Disk, ins: Inodes, d': Disk, ins': Inodes, bs: nat, f: nat, g: nat, inode': Inode)
    requires OthersSame(d, ins, d', ins', bs, f) && ins' == ins[f := inode'] && g != f
    ensures File(d', ins', g, bs) == File(d, ins, g, bs)
  {
    hide Content, SizeOf, File, ByteAt;
    forall k: nat ensures ByteAt(d', ins', g, k, bs) == ByteAt(d, ins, g, k, bs) {
      SameByte(d, ins, d', ins', bs, f, g, k);
    }
    if g !in ins {
      NoFile(d, ins, g, bs);
      NoFile(d', ins', g, bs);
    }
  }

  lemma NoFile(d: Disk, ins: Inodes, f: nat, bs: nat)
    requires f !in ins
    ensures File(d, ins, f, bs) == []
  {
  }

  lemma SameByte(d: Disk, ins: Inodes, d': Disk, ins': Inodes, bs: nat, f: nat, g: nat, k: nat)
    requires OthersSame(d, ins, d', ins', bs, f) && g != f
    ensures ByteAt(d', ins', g, k, bs) == ByteAt(d, ins, g, k, bs)
  {
    hide Content;
    if bs > 0 {
      assert Content(d', ins', g, k / bs, bs) == Content(d, ins, g, k / bs, bs);
    }
  }

  /** ext2_read_file. */
  method ReadFile(fs: Volume, inode: Inode, offset: nat, size: nat, ghost f: nat) returns (buf: seq<byte>)
    requires fs.Valid() && Holds(fs.ins, f, inode)
    modifies fs`blockBuf, fs`indBuf
    ensures fs.Valid() && buf == Range(File(fs.disk, fs.ins, f, fs.layout.bs), offset, size)
  {
    hide Good, SizeOf, At, PlaceOf, Content, ByteAt, File;
    var bs, fileSize := fs.layout.bs, SizeOf(inode);
    ghost var file := File(fs.disk, fs.ins, f, bs);
    if offset >= fileSize {
      return [];
    }
    var want := size;
    if want > fileSize - offset {
      want := fileSize - offset;
    }
    buf := [];
    while |buf| < want
      invariant fs.Valid() && |buf| <= want && buf == file[offset..offset + |buf|]
    {
      var idx, off := (offset + |buf|) / bs, (offset + |buf|) % bs;
      var n := bs - off;
      if n > want - |buf| {
        n := want - |buf|;
      }
      var piece := ReadPiece(fs, inode, idx, off, n, f);
      ReadChunk(fs.disk, fs.ins, f, bs, file, offset, |buf|, idx, off, n, Content(fs.disk, fs.ins, f, idx, bs));
      buf := buf + piece;
    }
  }

  function Slice(b: seq<byte>, off: nat, n: nat): seq<byte> { if off + n <= |b| then b[off..off + n] else [] }

  /** One turn of its loop: bytes of one block, zeros for a hole. */
  method ReadPiece(fs: Volume, inode: Inode, idx: nat, off: nat, n: nat, ghost f: nat) returns (piece: seq<byte>)
    requires fs.Valid() && Holds(fs.ins, f, inode) && off + n <= fs.layout.bs
    modifies fs`blockBuf, fs`indBuf
    ensures fs.Valid() && |Content(fs.disk, fs.ins, f, idx, fs.layout.bs)| == fs.layout.bs
    ensures piece == Slice(Content(fs.disk, fs.ins, f, idx, fs.layout.bs), off, n)
  {
    hide Good, SizeOf, At, PlaceOf;
    var bs := fs.layout.bs;
    var b := fs.GetBlock(inode, idx, f);
    ContentSizes(fs.layout, fs.kind, fs.disk, fs.owned, fs.groupFree, fs.sbFree, fs.ins, f);
    if b == 0 {
      HoleContent(fs.disk, fs.ins, bs, f, idx);
      assert Zeros(n) == Zeros(bs)[off..off + n];
      piece := Zeros(n);
    } else {
      BlockReady(fs.layout, fs.kind, fs.disk, fs.owned, fs.groupFree, fs.sbFree, fs.ins, b, f, idx);
      fs.blockBuf := fs.disk[b];
      piece := fs.blockBuf[off..off + n];
    }
  }

  /** The next chunk of the file is a part of one block. */
  lemma ReadChunk(d: Disk, ins: Inodes, f: nat, bs: nat, file: seq<byte>, offset: nat, got: nat, idx: nat, off: nat,
                  n: nat, c: Block)
    requires 0 < bs == |c| && idx == (offset + got) / bs && off == (offset + got) % bs && off + n <= bs
      && offset + got + n <= |file|
    requires file == File(d, ins, f, bs) && c == Content(d, ins, f, idx, bs)
    ensures file[offset..offset + got] + c[off..off + n] == file[offset..offset + (got + n)]
  {
    hide Content, SizeOf, File;
    var next := file[offset + got..offset + got + n];
    forall j | 0 <= j < n ensures next[j] == c[off + j] {
      DivisionIs(offset + got + j, bs, idx, off + j);
      assert file[offset + got + j] == ByteAt(d, ins, f, offset + got + j, bs);
    }
    assert c[off..off + n] == next;
  }

  /** What a read of `size` bytes at `offset` returns. */
  function Range(file: seq<byte>, offset: nat, size: nat): seq<byte> {
    if offset >= |file| then [] else if size > |file| - offset then file[offset..] else file[offset..offset + size]
  }

  /**
   * One free block is not enough to reach the first block past the direct ones: there is no
   * room, yet all is reported.
   */
  lemma IndirectNeedsTwo(d: Disk, ins: Inodes, f: nat, inode: Inode, bs: nat)
    requires Holds(ins, f, inode) && Indirect(inode) == 0 && 0 < Ptrs(bs)
    ensures Missing(d, ins, f, 12, 13, bs) == 1
    ensures !Room(d, ins, f, inode, 12, 13, 1, bs) && Reported(d, ins, f, inode, 12, 13, 1, bs)
    ensures Room(d, ins, f, inode, 12, 13, 2, bs)
  {
    NoTableNoBlock(d, ins, f, inode, 12, bs);
    hide At, PlaceOf;
    assert Missing(d, ins, f, 13, 13, bs) == 0;
  }

  /**
   * A write of that block, with one block free: all of it is counted as written, and the file
   * still has a hole there.
   */
  lemma IndirectWriteLost(d: Disk, ins: Inodes, d': Disk, ins': Inodes, bs: nat, f: nat, inode: Inode, data: seq<byte>,
                          done: nat, lost: bool, hole: nat)
    requires Holds(ins, f, inode) && Indirect(inode) == 0 && 0 < Ptrs(bs) && 0 < |data| <= bs
    requires Outcome(d, ins, 1, d', ins', bs, f, inode, 12 * bs, data, done, lost, hole)
    ensures done == |data| && lost && Content(d', ins', f, 12, bs) == Zeros(bs)
  {
    hide At, PlaceOf, Room, Reported, Content, Written, OthersSame, Indirect;
    IndirectNeedsTwo(d, ins, f, inode, bs);
    DivisionIs(12 * bs, bs, 12, 0);
    DivisionIs(12 * bs + |data| - 1, bs, 12, |data| - 1);
    HoleContent(d', ins', bs, f, 12);
  }

  /** Blocks past the indirect range can only be overwritten, never added. */
  lemma NoDoublyIndirectGrowth(d: Disk, ins: Inodes, f: nat, inode: Inode, i: nat, sb: nat, bs: nat)
    requires 12 + Ptrs(bs) <= i && At(d, ins, PlaceOf(f, i, Ptrs(bs))) == 0
    ensures !Room(d, ins, f, inode, i, i + 1, sb, bs)
  {
    hide At, PlaceOf;
  }
}
