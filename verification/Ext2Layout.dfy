/** The fixed layout of an ext2 volume: bitmaps, their counters, and inode tables (kernel/fs/ext2.c). */
module Ext2Layout {
  import opened Arith
  import opened Bytes
  import opened Ext2Blocks

  /** The geometry read from the superblock and the group descriptors at mount time. */
  datatype Layout = Layout(
    bs: nat,                // block size in bytes
    first: nat,             // s_first_data_block
    bpg: nat, ipg: nat,     // blocks and inodes per group
    isz: nat,               // inode size
    total: nat,             // blocks on the disk
    bitmaps: seq<nat>, inodeMaps: seq<nat>, tables: seq<nat>)  // per group

  /** What a metadata block is for. */
  datatype Use = Super | Descriptors | BlockMap(g: nat) | InodeMap(g: nat) | Table(g: nat, j: nat)

  /** Blocks in the inode table of a group. */
  function TableLength(l: Layout): nat
    requires 0 < l.bs
  {
    (l.ipg * l.isz + l.bs - 1) / l.bs
  }

  function SuperBlock(l: Layout): nat
    requires 0 < l.bs
  {
    1024 / l.bs
  }

  function DescriptorBlock(l: Layout): nat { if l.bs == 1024 then 2 else 1 }

  predicate Sizes(l: Layout) {
    && (l.bs == 1024 || l.bs == 2048 || l.bs == 4096)
    && 0 < l.bpg <= 8 * l.bs && 0 < l.ipg <= 8 * l.bs
    && INODE_BYTES <= l.isz && l.bs % l.isz == 0
    && |l.bitmaps| == |l.inodeMaps| == |l.tables| && 32 * |l.bitmaps| <= l.bs
    && l.total < 0x1_0000_0000
  }

  /** Every metadata block has one use, recorded in `kind`. */
  ghost predicate LayoutOk(l: Layout, kind: map<nat, Use>) {
    && Sizes(l)
    && (forall n :: n in kind ==> n < l.total)
    && SuperBlock(l) in kind && kind[SuperBlock(l)] == Super
    && DescriptorBlock(l) in kind && kind[DescriptorBlock(l)] == Descriptors
    && (forall g :: 0 <= g < |l.bitmaps| ==> l.bitmaps[g] in kind && kind[l.bitmaps[g]] == BlockMap(g))
    && (forall g :: 0 <= g < |l.inodeMaps| ==> l.inodeMaps[g] in kind && kind[l.inodeMaps[g]] == InodeMap(g))
    && (forall g, j :: 0 <= g < |l.tables| && 0 <= j < TableLength(l) ==>
          TableBlock(l, g, j) in kind && kind[TableBlock(l, g, j)] == Table(g, j))
  }

  function TableBlock(l: Layout, g: nat, j: nat): nat
    requires g < |l.tables|
  {
    l.tables[g] + j
  }

  // ----- block bitmaps -----

  /** The disk block that bit `i` of the bitmap of group `g` stands for. */
  function BlockNo(l: Layout, g: nat, i: nat): nat { g * l.bpg + i + l.first }

  lemma BlockNoInverse(l: Layout, g: nat, i: nat, h: nat, j: nat)
    requires i < l.bpg && j < l.bpg && BlockNo(l, g, i) == BlockNo(l, h, j)
    ensures g == h && i == j
  {
    Multiples(g, h, l.bpg);
    Multiples(h, g, l.bpg);
  }

  ghost predicate DiskOk(l: Layout, d: Disk) {
    (forall n: nat :: n in d <==> n < l.total) && (forall n :: n in d ==> |d[n]| == l.bs)
  }

  predicate Marked(l: Layout, d: Disk, g: nat, i: nat) {
    g < |l.bitmaps| && l.bitmaps[g] in d && i < 8 * |d[l.bitmaps[g]]| && BitAt(d[l.bitmaps[g]], i)
  }

  /** The block bitmap says that block `n` is in use. */
  ghost predicate InUse(l: Layout, d: Disk, n: nat) {
    exists g: nat, i: nat :: g < |l.bitmaps| && i < l.bpg && n == BlockNo(l, g, i) && Marked(l, d, g, i)
  }

  /** Sum of the free counts of all groups. */
  function Sum(s: seq<nat>): nat { if s == [] then 0 else Sum(s[..|s| - 1]) + s[|s| - 1] }

  /** A clear bit stands for a block that exists. */
  ghost predicate Padded(l: Layout, d: Disk) {
    forall g: nat, i: nat :: g < |l.bitmaps| && i < l.bpg && !Marked(l, d, g, i) ==> 0 < BlockNo(l, g, i) < l.total
  }

  /** The free counts are the numbers of clear bits. */
  ghost predicate Counted(l: Layout, d: Disk, free: seq<nat>, sbFree: nat) {
    && |free| == |l.bitmaps| && sbFree == Sum(free)
    && forall g :: 0 <= g < |free| ==>
      l.bitmaps[g] in d && l.bpg <= 8 * |d[l.bitmaps[g]]| && free[g] == ClearBits(d[l.bitmaps[g]], l.bpg)
  }

  /** Blocks of files are in use and apart from the metadata, which is in use too. */
  ghost predicate Claimed(l: Layout, kind: map<nat, Use>, d: Disk, owned: set<nat>) {
    && (forall n :: n in kind ==> InUse(l, d, n))
    && (forall n :: n in owned ==> InUse(l, d, n) && n !in kind && 0 < n < l.total)
  }

  ghost predicate VolumeOk(l: Layout, kind: map<nat, Use>, d: Disk, owned: set<nat>, free: seq<nat>, sbFree: nat) {
    LayoutOk(l, kind) && DiskOk(l, d) && Padded(l, d) && Counted(l, d, free, sbFree) && Claimed(l, kind, d, owned)
  }

  lemma {:induction false} SumChanges(s: seq<nat>, g: nat, v: nat)
    requires g < |s|
    ensures Sum(s[g := v]) == Sum(s) - s[g] + v && s[g] <= Sum(s)
  {
    var n := |s| - 1;
    if g < n {
      SumChanges(s[..n], g, v);
      assert s[g := v][..n] == s[..n][g := v];
    } else {
      assert s[g := v][..n] == s[..n];
    }
  }

  lemma {:induction false} SumZero(s: seq<nat>)
    requires forall g :: 0 <= g < |s| ==> s[g] == 0
    ensures Sum(s) == 0
  {
    if s != [] {
      SumZero(s[..|s| - 1]);
    }
  }

  /** The disk with bit `i` of group `g` set. */
  function Mark(l: Layout, d: Disk, g: nat, i: nat): Disk
    requires g < |l.bitmaps| && l.bitmaps[g] in d && i < 8 * |d[l.bitmaps[g]]|
  {
    d[l.bitmaps[g] := WithBit(d[l.bitmaps[g]], i)]
  }

  lemma MarkMarks(l: Layout, kind: map<nat, Use>, d: Disk, g: nat, i: nat, h: nat, j: nat)
    requires LayoutOk(l, kind) && DiskOk(l, d) && g < |l.bitmaps| && i < l.bpg && h < |l.bitmaps| && j < l.bpg
    ensures l.bitmaps[g] in d && Marked(l, Mark(l, d, g, i), h, j) == ((h == g && j == i) || Marked(l, d, h, j))
  {
    hide BitAt, WithBit;
    assert kind[l.bitmaps[g]] == BlockMap(g) && kind[l.bitmaps[h]] == BlockMap(h);
    if h == g {
      BitUpdates(d[l.bitmaps[g]], i, j);
    }
  }

  /** Taking a clear bit: exactly one more block is in use, and nobody had it. */
  lemma MarkUses(l: Layout, kind: map<nat, Use>, d: Disk, g: nat, i: nat, n: nat)
    requires LayoutOk(l, kind) && DiskOk(l, d) && g < |l.bitmaps| && i < l.bpg && !Marked(l, d, g, i)
    ensures l.bitmaps[g] in d && !InUse(l, d, BlockNo(l, g, i))
    ensures InUse(l, Mark(l, d, g, i), n) == (n == BlockNo(l, g, i) || InUse(l, d, n))
  {
    var d' := Mark(l, d, g, i);
    hide LayoutOk, Mark, Marked, BlockNo;
    if InUse(l, d, BlockNo(l, g, i)) {
      var h: nat, j: nat :| h < |l.bitmaps| && j < l.bpg && BlockNo(l, g, i) == BlockNo(l, h, j) && Marked(l, d, h, j);
      BlockNoInverse(l, g, i, h, j);
      assert false;
    }
    if InUse(l, d', n) {
      var h: nat, j: nat :| h < |l.bitmaps| && j < l.bpg && n == BlockNo(l, h, j) && Marked(l, d', h, j);
      MarkMarks(l, kind, d, g, i, h, j);
    }
    if InUse(l, d, n) {
      var h: nat, j: nat :| h < |l.bitmaps| && j < l.bpg && n == BlockNo(l, h, j) && Marked(l, d, h, j);
      MarkMarks(l, kind, d, g, i, h, j);
    }
    MarkMarks(l, kind, d, g, i, g, i);
  }

  lemma MarkCounts(l: Layout, kind: map<nat, Use>, d: Disk, g: nat, i: nat, free: seq<nat>, sbFree: nat)
    requires LayoutOk(l, kind) && DiskOk(l, d) && Counted(l, d, free, sbFree)
    requires g < |l.bitmaps| && i < l.bpg && !Marked(l, d, g, i)
    ensures 0 < free[g] && 0 < sbFree && Counted(l, Mark(l, d, g, i), free[g := free[g] - 1], sbFree - 1)
  {
    hide BitAt, WithBit, ClearBits, Sum;
    var b := d[l.bitmaps[g]];
    ClearBitCounts(b, l.bpg, i);
    ClearBitsChange(b, i, l.bpg);
    SumChanges(free, g, free[g] - 1);
    forall h | 0 <= h < |free| && h != g ensures l.bitmaps[h] != l.bitmaps[g] {
      assert kind[l.bitmaps[h]] == BlockMap(h);
    }
  }

  /** Allocating a block keeps the volume consistent and hands out a block that was free. */
  lemma TakeBlock(l: Layout, kind: map<nat, Use>, d: Disk, owned: set<nat>, free: seq<nat>, sbFree: nat, g: nat, i: nat)
    requires VolumeOk(l, kind, d, owned, free, sbFree) && g < |l.bitmaps| && i < l.bpg && !Marked(l, d, g, i)
    ensures var b := BlockNo(l, g, i);
            && 0 < free[g] && 0 < sbFree && l.bitmaps[g] in d
            && VolumeOk(l, kind, Mark(l, d, g, i), owned, free[g := free[g] - 1], sbFree - 1)
            && 0 < b < l.total && b !in owned && b !in kind && InUse(l, Mark(l, d, g, i), b)
  {
    hide LayoutOk, InUse, Marked, BlockNo;
    MarkCounts(l, kind, d, g, i, free, sbFree);
    MarkUses(l, kind, d, g, i, BlockNo(l, g, i));
    var d' := Mark(l, d, g, i);
    forall n | n in kind || n in owned ensures InUse(l, d', n) {
      MarkUses(l, kind, d, g, i, n);
    }
    forall h: nat, j: nat | h < |l.bitmaps| && j < l.bpg && !Marked(l, d', h, j)
      ensures 0 < BlockNo(l, h, j) < l.total {
      MarkMarks(l, kind, d, g, i, h, j);
    }
    assert l.bitmaps[g] in kind by { BitmapKind(l, kind, g); }
  }

  /** The disk with bit `i` of group `g` cleared. */
  function Unmark(l: Layout, d: Disk, g: nat, i: nat): Disk
    requires g < |l.bitmaps| && l.bitmaps[g] in d && i < 8 * |d[l.bitmaps[g]]|
  {
    d[l.bitmaps[g] := WithoutBit(d[l.bitmaps[g]], i)]
  }

  lemma UnmarkMarks(l: Layout, kind: map<nat, Use>, d: Disk, g: nat, i: nat, h: nat, j: nat)
    requires LayoutOk(l, kind) && DiskOk(l, d) && g < |l.bitmaps| && i < l.bpg && h < |l.bitmaps| && j < l.bpg
    ensures l.bitmaps[g] in d && Marked(l, Unmark(l, d, g, i), h, j) == (!(h == g && j == i) && Marked(l, d, h, j))
  {
    hide BitAt, WithoutBit;
    assert kind[l.bitmaps[g]] == BlockMap(g) && kind[l.bitmaps[h]] == BlockMap(h);
    if h == g {
      BitUpdates(d[l.bitmaps[g]], i, j);
    }
  }

  /** Clearing a set bit: exactly one block fewer is in use. */
  lemma UnmarkUses(l: Layout, kind: map<nat, Use>, d: Disk, g: nat, i: nat, n: nat)
    requires LayoutOk(l, kind) && DiskOk(l, d) && g < |l.bitmaps| && i < l.bpg && Marked(l, d, g, i)
    ensures l.bitmaps[g] in d && InUse(l, Unmark(l, d, g, i), n) == (n != BlockNo(l, g, i) && InUse(l, d, n))
  {
    UnmarkMarks(l, kind, d, g, i, g, i);
    var d' := Unmark(l, d, g, i);
    hide LayoutOk, Unmark, Marked, BlockNo;
    if InUse(l, d', n) {
      var h: nat, j: nat :| h < |l.bitmaps| && j < l.bpg && n == BlockNo(l, h, j) && Marked(l, d', h, j);
      UnmarkMarks(l, kind, d, g, i, h, j);
      if n == BlockNo(l, g, i) {
        BlockNoInverse(l, g, i, h, j);
      }
    }
    if InUse(l, d, n) && n != BlockNo(l, g, i) {
      var h: nat, j: nat :| h < |l.bitmaps| && j < l.bpg && n == BlockNo(l, h, j) && Marked(l, d, h, j);
      UnmarkMarks(l, kind, d, g, i, h, j);
    }
  }

  lemma UnmarkCounts(l: Layout, kind: map<nat, Use>, d: Disk, g: nat, i: nat, free: seq<nat>, sbFree: nat)
    requires LayoutOk(l, kind) && DiskOk(l, d) && Counted(l, d, free, sbFree)
    requires g < |l.bitmaps| && i < l.bpg && Marked(l, d, g, i)
    ensures Counted(l, Unmark(l, d, g, i), free[g := free[g] + 1], sbFree + 1)
  {
    hide BitAt, WithoutBit, ClearBits, Sum;
    ClearBitsChange(d[l.bitmaps[g]], i, l.bpg);
    SumChanges(free, g, free[g] + 1);
    forall h | 0 <= h < |free| && h != g ensures l.bitmaps[h] != l.bitmaps[g] {
      assert kind[l.bitmaps[h]] == BlockMap(h);
    }
  }

  /** Giving back a block that belongs to nobody keeps the volume consistent. */
  lemma GiveBlock(l: Layout, kind: map<nat, Use>, d: Disk, owned: set<nat>, free: seq<nat>, sbFree: nat, g: nat, i: nat)
    requires g < |l.bitmaps| == |free| && i < l.bpg && Marked(l, d, g, i) && VolumeOk(l, kind, d, owned, free, sbFree)
    requires var b := BlockNo(l, g, i); b !in owned && b !in kind && 0 < b < l.total
    ensures l.bitmaps[g] in d && VolumeOk(l, kind, Unmark(l, d, g, i), owned, free[g := free[g] + 1], sbFree + 1)
  {
    hide LayoutOk, InUse, Marked, BlockNo;
    UnmarkCounts(l, kind, d, g, i, free, sbFree);
    UnmarkUses(l, kind, d, g, i, 0);
    var d' := Unmark(l, d, g, i);
    forall n | n in kind || n in owned ensures InUse(l, d', n) {
      UnmarkUses(l, kind, d, g, i, n);
    }
    forall h: nat, j: nat | h < |l.bitmaps| && j < l.bpg && !Marked(l, d', h, j)
      ensures 0 < BlockNo(l, h, j) < l.total {
      UnmarkMarks(l, kind, d, g, i, h, j);
    }
    assert l.bitmaps[g] in kind by { BitmapKind(l, kind, g); }
  }

  lemma BitmapKind(l: Layout, kind: map<nat, Use>, g: nat)
    requires LayoutOk(l, kind) && g < |l.bitmaps|
    ensures l.bitmaps[g] in kind && kind[l.bitmaps[g]] == BlockMap(g) && l.bitmaps[g] < l.total
  {
  }

  /** Writing a block that is not a bitmap changes nothing here. */
  lemma OtherWrite(l: Layout, kind: map<nat, Use>, d: Disk, owned: set<nat>, free: seq<nat>, sbFree: nat, b: nat,
                   c: Block)
    requires VolumeOk(l, kind, d, owned, free, sbFree) && b in d && |c| == l.bs
    requires b in kind ==> !kind[b].BlockMap?
    ensures VolumeOk(l, kind, d[b := c], owned, free, sbFree)
  {
    hide Padded, Counted, Claimed, LayoutOk;
    var d' := d[b := c];
    assert SameBitmaps(l, d, d') by {
      forall g | 0 <= g < |l.bitmaps|
        ensures l.bitmaps[g] in d && l.bitmaps[g] in d' && d'[l.bitmaps[g]] == d[l.bitmaps[g]] {
        BitmapKind(l, kind, g);
      }
    }
    SameUse(l, kind, d, d', owned, free, sbFree);
  }

  predicate SameBitmaps(l: Layout, d: Disk, d': Disk) {
    forall g :: 0 <= g < |l.bitmaps| ==> l.bitmaps[g] in d && l.bitmaps[g] in d' && d'[l.bitmaps[g]] == d[l.bitmaps[g]]
  }

  lemma SameUse(l: Layout, kind: map<nat, Use>, d: Disk, d': Disk, owned: set<nat>, free: seq<nat>, sbFree: nat)
    requires SameBitmaps(l, d, d')
    ensures Padded(l, d) ==> Padded(l, d')
    ensures Counted(l, d, free, sbFree) ==> Counted(l, d', free, sbFree)
    ensures Claimed(l, kind, d, owned) ==> Claimed(l, kind, d', owned)
  {
    hide BlockNo, ClearBits, BitAt, Sum;
    forall g: nat, i: nat ensures Marked(l, d', g, i) == Marked(l, d, g, i) {
    }
    hide Marked;
    forall n: nat | InUse(l, d, n) ensures InUse(l, d', n) {
      var g: nat, i: nat :| g < |l.bitmaps| && i < l.bpg && n == BlockNo(l, g, i) && Marked(l, d, g, i);
      assert Marked(l, d', g, i);
    }
    hide InUse;
  }

  /** A block in use, outside the metadata, may be claimed for a file. */
  lemma Claim(l: Layout, kind: map<nat, Use>, d: Disk, owned: set<nat>, free: seq<nat>, sbFree: nat, b: nat)
    requires VolumeOk(l, kind, d, owned, free, sbFree) && InUse(l, d, b) && b !in kind && 0 < b < l.total
    ensures VolumeOk(l, kind, d, owned + {b}, free, sbFree)
  {
    hide LayoutOk, DiskOk, Counted, InUse, Padded;
  }

  // ----- inode tables -----

  predicate IsInode(l: Layout, f: nat)
    requires 0 < l.ipg
  {
    0 < f && (f - 1) / l.ipg < |l.tables|
  }

  function InodeGroup(l: Layout, f: nat): nat
    requires 0 < l.ipg && 0 < f
  {
    (f - 1) / l.ipg
  }

  /** The byte position of an inode within the table of its group. */
  function InodeOffset(l: Layout, f: nat): nat
    requires 0 < l.ipg && 0 < f
  {
    (f - 1) % l.ipg * l.isz
  }

  function InodeBlock(l: Layout, f: nat): nat
    requires 0 < l.ipg && 0 < l.bs && IsInode(l, f)
  {
    TableBlock(l, InodeGroup(l, f), InodeOffset(l, f) / l.bs)
  }

  lemma InodeFits(l: Layout, kind: map<nat, Use>, f: nat)
    requires LayoutOk(l, kind) && IsInode(l, f)
    ensures InodeOffset(l, f) % l.bs + l.isz <= l.bs && InodeOffset(l, f) / l.bs < TableLength(l)
    ensures InodeBlock(l, f) in kind && kind[InodeBlock(l, f)] == Table(InodeGroup(l, f), InodeOffset(l, f) / l.bs)
  {
    assert Sizes(l);
    var g, j := InodeGroup(l, f), InodeOffset(l, f) / l.bs;
    assert InodeOffset(l, f) % l.bs + l.isz <= l.bs && j < TableLength(l) by {
      hide LayoutOk;
      var x, m := (f - 1) % l.ipg, l.bs / l.isz;
      WholeInodes(l.bs, l.isz);
      ScaledDivision(x, l.isz, m);
      OffsetInTable(x, l.ipg, l.isz, l.bs);
    }
    assert TableBlock(l, g, j) in kind && kind[TableBlock(l, g, j)] == Table(g, j);
  }

  lemma WholeInodes(bs: nat, isz: nat)
    requires 0 < isz && 0 < bs && bs % isz == 0
    ensures bs == isz * (bs / isz) && 0 < bs / isz
  {
    assert bs == bs / isz * isz + bs % isz;
  }

  lemma OffsetInTable(x: nat, ipg: nat, isz: nat, bs: nat)
    requires x < ipg && 0 < isz && 0 < bs
    ensures x * isz / bs < (ipg * isz + bs - 1) / bs
  {
    var q := x * isz / bs;
    assert x * isz == q * bs + x * isz % bs;
    Multiples(x, ipg, isz);
    assert (q + 1) * bs == q * bs + bs;
    QuotientAtLeast(ipg * isz + bs - 1, bs, q + 1);
  }

  /** Two inodes in one block do not overlap. */
  lemma InodesApart(l: Layout, kind: map<nat, Use>, f: nat, h: nat)
    requires LayoutOk(l, kind) && IsInode(l, f) && IsInode(l, h) && f != h && InodeBlock(l, f) == InodeBlock(l, h)
    ensures var o, p := InodeOffset(l, f) % l.bs, InodeOffset(l, h) % l.bs; o + l.isz <= p || p + l.isz <= o
  {
    assert Sizes(l);
    assert InodeGroup(l, f) == InodeGroup(l, h) && InodeOffset(l, f) / l.bs == InodeOffset(l, h) / l.bs by {
      InodeFits(l, kind, f);
      InodeFits(l, kind, h);
    }
    hide LayoutOk;
    var x, y, a, m := (f - 1) % l.ipg, (h - 1) % l.ipg, l.isz, l.bs / l.isz;
    WholeInodes(l.bs, l.isz);
    ScaledDivision(x, a, m);
    ScaledDivision(y, a, m);
    SameQuotient(f - 1, h - 1, l.ipg);
    SameQuotient(x, y, m);
    Multiples(x % m, y % m, a);
    Multiples(y % m, x % m, a);
  }

  lemma SameQuotient(x: nat, y: nat, n: nat)
    requires 0 < n && x / n == y / n && x != y
    ensures x % n != y % n
  {
    assert x == x / n * n + x % n && y == y / n * n + y % n;
  }

  /** The inode as it lies in the inode table. */
  ghost function OnDisk(l: Layout, kind: map<nat, Use>, d: Disk, f: nat): Inode
    requires LayoutOk(l, kind) && DiskOk(l, d) && IsInode(l, f)
  {
    InodeFits(l, kind, f);
    var o := InodeOffset(l, f) % l.bs;
    d[InodeBlock(l, f)][o..o + INODE_BYTES]
  }

  /** The inodes of `ins`, but for `f`, are stored on disk. */
  ghost predicate StoredBut(l: Layout, kind: map<nat, Use>, d: Disk, ins: map<nat, Inode>, f: nat) {
    && LayoutOk(l, kind) && DiskOk(l, d)
    && forall h :: h in ins ==> IsInode(l, h) && (h != f ==> OnDisk(l, kind, d, h) == ins[h])
  }

  lemma StoreInode(l: Layout, kind: map<nat, Use>, d: Disk, ins: map<nat, Inode>, f: nat)
    requires StoredBut(l, kind, d, ins, f) && f in ins
    ensures InodeBlock(l, f) in d && InodeBlock(l, f) in kind && kind[InodeBlock(l, f)].Table?
    ensures InodeOffset(l, f) % l.bs + INODE_BYTES <= l.bs
    ensures var b := InodeBlock(l, f);
        StoredBut(l, kind, d[b := Splice(d[b], InodeOffset(l, f) % l.bs, ins[f])], ins, 0)
  {
    InodeFits(l, kind, f);
    var b, o := InodeBlock(l, f), InodeOffset(l, f) % l.bs;
    var d' := d[b := Splice(d[b], o, ins[f])];
    assert d'[b][o..o + INODE_BYTES] == ins[f];
    forall h | h in ins && h != f ensures OnDisk(l, kind, d', h) == ins[h] {
      assert OnDisk(l, kind, d, h) == ins[h];
      InodeFits(l, kind, h);
      if InodeBlock(l, h) == b {
        InodesApart(l, kind, f, h);
        var p := InodeOffset(l, h) % l.bs;
        assert d'[b][p..p + INODE_BYTES] == d[b][p..p + INODE_BYTES];
      }
    }
  }

  lemma StoredKept(l: Layout, kind: map<nat, Use>, d: Disk, ins: map<nat, Inode>, f: nat, b: nat, c: Block)
    requires StoredBut(l, kind, d, ins, f) && b in d && |c| == l.bs && (b in kind ==> !kind[b].Table?)
    ensures StoredBut(l, kind, d[b := c], ins, f)
  {
    hide LayoutOk;
    var d' := d[b := c];
    assert DiskOk(l, d');
    forall h | h in ins && h != f ensures OnDisk(l, kind, d', h) == OnDisk(l, kind, d, h) {
      InodeFits(l, kind, h);
    }
  }
}
