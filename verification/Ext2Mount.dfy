/** ext2_init (kernel/fs/ext2.c), and what a mount finds of the volume that was there before. */
module Ext2Mount {
  import opened Bytes
  import opened Ext2Blocks
  import opened Ext2Layout
  import opened Ext2Steps
  import opened Ext2

  const MAGIC := 0xEF53

  /** The superblock in memory: the first 204 of its 1024 bytes. */
  type Super = s: seq<byte> | |s| == 204 witness Zeros(204)

  /** What ext2_init reads from the superblock. */
  datatype Geometry = Geometry(magic: nat, bs: nat, first: nat, bpg: nat, ipg: nat, isz: nat, total: nat)

  function GeometryOf(sb: Super): Geometry {
    Geometry(Field(sb, 56, 2), 1024 * Pow2(Field(sb, 24, 4)), Field(sb, 20, 4), Field(sb, 32, 4), Field(sb, 40, 4),
             if Field(sb, 76, 4) >= 1 then Field(sb, 88, 2) else 128, Field(sb, 4, 4))
  }

  /** The number of block groups, with a sum that may wrap. */
  function Groups(g: Geometry): nat { if g.bpg == 0 then 0 else (g.total + g.bpg - 1) % 0x1_0000_0000 / g.bpg }

  /** Failure, a division by zero, or a superblock and a table of group descriptors. */
  datatype Mount = Failed | Fault | Mounted(sb: Super, bgdt: seq<byte>)

  /**
   * ext2_init on a disk with these bytes. `granted` tells whether there is memory for the
   * descriptors, `mem` what is in it before; only one block of them is read.
   */
  function Init(raw: seq<byte>, granted: bool, mem: nat -> byte): Mount {
    if |raw| < 2048 then Failed else
    var sb := raw[1024..1228];
    var g := GeometryOf(sb);
    if g.magic != MAGIC then Failed
    else if g.bpg == 0 then Fault
    else if 4096 < g.bs || !granted then Failed
    else
      var at := (if g.bs == 1024 then 2 else 1) * g.bs;
      if |raw| < at + g.bs then Failed
      else Mounted(sb, seq(32 * Groups(g), i requires 0 <= i => if i < g.bs then raw[at + i] else mem(i)))
  }

  /** The descriptors are as many as there are groups. */
  predicate Whole(sb: Super, bgdt: seq<byte>) { |bgdt| == 32 * Groups(GeometryOf(sb)) }

  /** The layout a mount takes from the superblock and the descriptors. */
  function LayoutOf(sb: Super, bgdt: seq<byte>): Layout
    requires Whole(sb, bgdt)
  {
    var g := GeometryOf(sb);
    Layout(g.bs, g.first, g.bpg, g.ipg, g.isz, g.total, Column(bgdt, 0, 4), Column(bgdt, 4, 4), Column(bgdt, 8, 4))
  }

  /** A field of every descriptor. */
  function Column(bgdt: seq<byte>, off: nat, n: nat): (r: seq<nat>)
    requires off + n <= 32
    ensures |r| == |bgdt| / 32
  {
    seq(|bgdt| / 32, g requires 0 <= g < |bgdt| / 32 => Field(bgdt, 32 * g + off, n))
  }

  /** What follows the free count in every descriptor. */
  function Tails(bgdt: seq<byte>): (r: seq<seq<byte>>)
    ensures |r| == |bgdt| / 32 && forall g :: 0 <= g < |r| ==> |r[g]| == 18
  {
    seq(|bgdt| / 32, g requires 0 <= g < |bgdt| / 32 => bgdt[32 * g + 14..32 * g + 32])
  }

  // ----- the bytes of a disk -----

  function Image(d: Disk, bs: nat, n: nat): (r: seq<byte>)
    requires forall b: nat :: b < n ==> b in d && |d[b]| == bs
    ensures |r| == n * bs
  {
    if n == 0 then [] else assert n * bs == (n - 1) * bs + bs; Image(d, bs, n - 1) + d[n - 1]
  }

  lemma OneMore(n: nat, bs: nat)
    requires 0 < n
    ensures n * bs == (n - 1) * bs + bs
  {
  }

  lemma Later(a: seq<byte>, b: seq<byte>, c: seq<byte>, o: int, n: nat)
    requires 0 <= o && o + n <= |a| && a[o..o + n] == c
    ensures (a + b)[o..o + n] == c
  {
  }

  lemma SliceOfBack(a: seq<byte>, b: seq<byte>)
    ensures (a + b)[|a|..|a| + |b|] == b
  {
  }

  lemma {:induction false} ImageAt(d: Disk, bs: nat, n: nat, b: nat)
    requires b < n && forall c: nat :: c < n ==> c in d && |d[c]| == bs
    ensures b * bs + bs <= n * bs && Image(d, bs, n)[b * bs..b * bs + bs] == d[b]
  {
    var rest, last := Image(d, bs, n - 1), d[n - 1];
    var all := Image(d, bs, n);
    OneMore(n, bs);
    assert all == rest + last;
    if b == n - 1 {
      SliceOfBack(rest, last);
    } else {
      ImageAt(d, bs, n - 1, b);
      hide Image;
      Later(rest, last, d[b], b * bs, bs);
    }
  }

  /** The blocks of a disk with these bytes. */
  function BlocksOf(raw: seq<byte>, bs: nat, n: nat): Disk {
    map b: nat | b < n && b * bs + bs <= |raw| :: raw[b * bs..b * bs + bs]
  }

  /** The bytes of a disk have its blocks. */
  lemma BlocksOfImage(l: Layout, d: Disk)
    requires DiskOk(l, d)
    ensures BlocksOf(Image(d, l.bs, l.total), l.bs, l.total) == d
  {
    forall b: nat | b < l.total ensures b * l.bs + l.bs <= l.total * l.bs {
      ImageAt(d, l.bs, l.total, b);
    }
    forall b: nat | b < l.total ensures Image(d, l.bs, l.total)[b * l.bs..b * l.bs + l.bs] == d[b] {
      ImageAt(d, l.bs, l.total, b);
    }
  }

  // ----- reading back the superblock -----

  /** The superblock with this count of free blocks. */
  function SuperWith(head: seq<byte>, free: nat, tail: seq<byte>): Super
    requires |head| == 12 && |tail| == 188
  {
    head + Le(4, free) + tail
  }

  lemma SameField(s: seq<byte>, t: seq<byte>, off: nat, n: nat)
    requires off + n <= |s| && off + n <= |t| && s[off..off + n] == t[off..off + n]
    ensures Field(s, off, n) == Field(t, off, n)
  {
  }

  /** Nothing else is read from where the free count is. */
  lemma SameGeometry(head: seq<byte>, free: nat, free': nat, tail: seq<byte>)
    requires |head| == 12 && |tail| == 188
    ensures GeometryOf(SuperWith(head, free, tail)) == GeometryOf(SuperWith(head, free', tail))
  {
    hide Field, Pow2, Le;
    var s, t := SuperWith(head, free, tail), SuperWith(head, free', tail);
    forall off: nat, n: nat | off + n <= 12 || (16 <= off && off + n <= 204)
      ensures Field(s, off, n) == Field(t, off, n) {
      assert s[off..off + n] == t[off..off + n];
      SameField(s, t, off, n);
    }
  }

  /** The bytes a volume keeps of its superblock say what its layout is. */
  predicate Describes(l: Layout, head: seq<byte>, tail: seq<byte>) {
    && |head| == 12 && |tail| == 188
    && var g := GeometryOf(SuperWith(head, 0, tail));
    && g == Geometry(MAGIC, l.bs, l.first, l.bpg, l.ipg, l.isz, l.total) && Groups(g) == |l.bitmaps|
  }

  lemma FreeCount(head: seq<byte>, free: nat, tail: seq<byte>)
    requires |head| == 12 && |tail| == 188 && free < 0x1_0000_0000
    ensures Field(SuperWith(head, free, tail), 12, 4) == free
  {
    assert SuperWith(head, free, tail)[12..16] == Le(4, free);
    assert Pow256(4) == 0x1_0000_0000;
    ValLe(4, free);
  }

  // ----- reading back the descriptors -----

  lemma {:induction false} ClearBitsBound(s: seq<byte>, n: nat)
    requires n <= 8 * |s|
    ensures ClearBits(s, n) <= n
  {
    if n > 0 {
      ClearBitsBound(s, n - 1);
    }
  }

  lemma {:induction false} SumBound(s: seq<nat>, m: nat)
    requires forall g :: 0 <= g < |s| ==> s[g] <= m
    ensures Sum(s) <= |s| * m
  {
    if s != [] {
      SumBound(s[..|s| - 1], m);
      assert |s| * m == (|s| - 1) * m + m;
    }
  }

  lemma CountsFit(l: Layout, d: Disk, free: seq<nat>, sbFree: nat)
    requires Sizes(l) && Counted(l, d, free, sbFree)
    ensures sbFree < 0x1_0000_0000 && forall g :: 0 <= g < |free| ==> free[g] < 0x1_0000
  {
    hide ClearBits, Sum;
    forall g | 0 <= g < |free| ensures free[g] <= 32768 {
      ClearBitsBound(d[l.bitmaps[g]], l.bpg);
    }
    SumBound(free, 32768);
  }

  lemma {:induction false} DescriptorAt(l: Layout, free: seq<nat>, tails: seq<seq<byte>>, n: nat, g: nat)
    requires g < n <= |l.bitmaps| == |l.inodeMaps| == |l.tables| == |free| == |tails|
    requires forall h :: 0 <= h < |tails| ==> |tails[h]| == 18
    ensures DescriptorTable(l, free, tails, n)[32 * g..32 * g + 32] == DescriptorBytes(l, free[g], tails[g], g)
  {
    hide DescriptorBytes;
    var r := DescriptorTable(l, free, tails, n);
    if g < n - 1 {
      DescriptorAt(l, free, tails, n - 1, g);
      var q := DescriptorTable(l, free, tails, n - 1);
      assert r[32 * g..32 * g + 32] == q[32 * g..32 * g + 32];
    }
  }

  lemma DescriptorFields(l: Layout, free: nat, tail: seq<byte>, g: nat)
    requires g < |l.bitmaps| == |l.inodeMaps| == |l.tables| && |tail| == 18 && free < 0x1_0000
    requires l.bitmaps[g] < 0x1_0000_0000 && l.inodeMaps[g] < 0x1_0000_0000 && l.tables[g] < 0x1_0000_0000
    ensures var b := DescriptorBytes(l, free, tail, g);
            && Field(b, 0, 4) == l.bitmaps[g] && Field(b, 4, 4) == l.inodeMaps[g] && Field(b, 8, 4) == l.tables[g]
            && Field(b, 12, 2) == free && b[14..32] == tail
  {
    hide Le, Val;
    var b := DescriptorBytes(l, free, tail, g);
    assert b[0..4] == Le(4, l.bitmaps[g]) && b[4..8] == Le(4, l.inodeMaps[g]) && b[8..12] == Le(4, l.tables[g]);
    assert b[12..14] == Le(2, free);
    assert Pow256(4) == 0x1_0000_0000 && Pow256(2) == 0x1_0000;
    ValLe(4, l.bitmaps[g]);
    ValLe(4, l.inodeMaps[g]);
    ValLe(4, l.tables[g]);
    ValLe(2, free);
  }

  lemma FieldWithin(b: seq<byte>, o: nat, off: nat, n: nat)
    requires off + n <= 32 && o + 32 <= |b|
    ensures Field(b, o + off, n) == Field(b[o..o + 32], off, n)
  {
    SubSlice(b, o, 32, off, off + n);
  }

  /** The descriptors of a volume are read back as they were written. */
  lemma DescriptorsBack(l: Layout, kind: map<nat, Use>, free: seq<nat>, tails: seq<seq<byte>>)
    requires LayoutOk(l, kind) && |free| == |tails| == |l.bitmaps|
      && (forall h :: 0 <= h < |tails| ==> |tails[h]| == 18)
    requires forall g :: 0 <= g < |free| ==> free[g] < 0x1_0000
    ensures var t := DescriptorTable(l, free, tails, |free|);
            && Column(t, 0, 4) == l.bitmaps && Column(t, 4, 4) == l.inodeMaps && Column(t, 8, 4) == l.tables
            && Column(t, 12, 2) == free && Tails(t) == tails
  {
    hide Field, DescriptorTable, DescriptorBytes, LayoutOk;
    assert Sizes(l) by { LayoutSizes(l, kind); }
    var t := DescriptorTable(l, free, tails, |free|);
    forall g: nat | g < |free|
      ensures Column(t, 0, 4)[g] == l.bitmaps[g] && Column(t, 4, 4)[g] == l.inodeMaps[g]
      ensures Column(t, 8, 4)[g] == l.tables[g] && Column(t, 12, 2)[g] == free[g] && Tails(t)[g] == tails[g]
    {
      NumbersFit(l, kind, g);
      DescriptorAt(l, free, tails, |free|, g);
      DescriptorFields(l, free[g], tails[g], g);
      FieldWithin(t, 32 * g, 0, 4);
      FieldWithin(t, 32 * g, 4, 4);
      FieldWithin(t, 32 * g, 8, 4);
      FieldWithin(t, 32 * g, 12, 2);
      SubSlice(t, 32 * g, 32, 14, 32);
    }
  }

  lemma LayoutSizes(l: Layout, kind: map<nat, Use>)
    requires LayoutOk(l, kind)
    ensures Sizes(l)
  {
  }

  /** The block numbers of a layout fit 32 bits. */
  lemma NumbersFit(l: Layout, kind: map<nat, Use>, g: nat)
    requires LayoutOk(l, kind) && g < |l.bitmaps|
    ensures l.bitmaps[g] < 0x1_0000_0000 && l.inodeMaps[g] < 0x1_0000_0000 && l.tables[g] < 0x1_0000_0000
  {
    TableNotEmpty(l.ipg * l.isz, l.bs);
    assert TableBlock(l, g, 0) in kind;
  }

  lemma TableNotEmpty(n: nat, bs: nat)
    requires 0 < bs && 0 < n
    ensures 0 < (n + bs - 1) / bs
  {
  }

  // ----- one mount and the next -----

  /** The two places a mount reads. */
  lemma ImageParts(l: Layout, kind: map<nat, Use>, d: Disk)
    requires LayoutOk(l, kind) && DiskOk(l, d)
    ensures HasBlock(d, SuperBlock(l), l.bs) && HasBlock(d, DescriptorBlock(l), l.bs)
    ensures var raw, at := Image(d, l.bs, l.total), DescriptorBlock(l) * l.bs;
            && 2048 <= |raw| && at + l.bs <= |raw| && raw[at..at + l.bs] == d[DescriptorBlock(l)]
            && raw[1024..2048] == d[SuperBlock(l)][1024 % l.bs..1024 % l.bs + 1024]
  {
    hide Image;
    var raw, s, o := Image(d, l.bs, l.total), SuperBlock(l), 1024 % l.bs;
    ImageAt(d, l.bs, l.total, s);
    ImageAt(d, l.bs, l.total, DescriptorBlock(l));
    SubSlice(raw, s * l.bs, l.bs, o, o + 1024);
  }

  /** What a mount finds. */
  predicate Finds(r: Mount, l: Layout, free: seq<nat>, sbFree: nat, head: seq<byte>, tail: seq<byte>,
                  tails: seq<seq<byte>>)
  {
    && r.Mounted? && Whole(r.sb, r.bgdt) && LayoutOf(r.sb, r.bgdt) == l
    && r.sb[..12] == head && Field(r.sb, 12, 4) == sbFree && r.sb[16..] == tail
    && Column(r.bgdt, 12, 2) == free && Tails(r.bgdt) == tails
  }

  /** A mount of a volume that was flushed finds the volume. */
  lemma Remount(l: Layout, kind: map<nat, Use>, d: Disk, owned: set<nat>, free: seq<nat>, sbFree: nat,
                head: seq<byte>, tail: seq<byte>, tails: seq<seq<byte>>, mem: nat -> byte)
    requires VolumeOk(l, kind, d, owned, free, sbFree) && Flushed(l, d, free, sbFree, head, tail, tails)
      && Describes(l, head, tail)
    ensures DiskOk(l, d) && Finds(Init(Image(d, l.bs, l.total), true, mem), l, free, sbFree, head, tail, tails)
  {
    hide Padded, Claimed, Counted, LayoutOk, Image, DescriptorTable, DescriptorBytes, GeometryOf, Field, Le, Column,
         Tails;
    CountsFit(l, d, free, sbFree);
    ImageParts(l, kind, d);
    DescriptorsBack(l, kind, free, tails);
    FreeCount(head, sbFree, tail);
    SameGeometry(head, sbFree, 0, tail);
    var raw, at := Image(d, l.bs, l.total), DescriptorBlock(l) * l.bs;
    SubSlice(raw, 1024, 1024, 0, 204);
    assert raw[1024..1228] == SuperWith(head, sbFree, tail);
    SubSlice(raw, at, l.bs, 0, 32 * |free|);
    var r := Init(raw, true, mem);
    assert r.bgdt == DescriptorTable(l, free, tails, |free|);
  }

  /** What a mount keeps of the superblock says what its layout is. */
  lemma MountDescribes(raw: seq<byte>, granted: bool, mem: nat -> byte)
    requires Init(raw, granted, mem).Mounted?
    ensures var r := Init(raw, granted, mem);
            Whole(r.sb, r.bgdt) && Describes(LayoutOf(r.sb, r.bgdt), r.sb[..12], r.sb[16..])
  {
    hide GeometryOf, Field, Column;
    var r := Init(raw, granted, mem);
    SuperSplits(r.sb);
    SameGeometry(r.sb[..12], Field(r.sb, 12, 4), 0, r.sb[16..]);
  }

  lemma SuperSplits(sb: Super)
    ensures SuperWith(sb[..12], Field(sb, 12, 4), sb[16..]) == sb
  {
    LeVal(sb[12..16]);
  }

  /** Writing the superblock back right after a mount clears the 820 bytes the mount did not keep. */
  lemma FlushAfterMount(raw: seq<byte>, granted: bool, mem: nat -> byte)
    requires Init(raw, granted, mem).Mounted?
    ensures var r := Init(raw, granted, mem);
            SuperBytes(r.sb[..12], Field(r.sb, 12, 4), r.sb[16..]) == raw[1024..2048] <==> raw[1228..2048] == Zeros(820)
  {
    hide GeometryOf, Field;
    var r := Init(raw, granted, mem);
    SuperSplits(r.sb);
    var w := SuperBytes(r.sb[..12], Field(r.sb, 12, 4), r.sb[16..]);
    assert w == r.sb + Zeros(820);
    assert raw[1024..2048] == r.sb + raw[1228..2048];
    assert w[204..] == Zeros(820) && (r.sb + raw[1228..2048])[204..] == raw[1228..2048];
  }

  /** The descriptors are written back as they were read. */
  lemma {:induction false} DescriptorsKept(sb: Super, bgdt: seq<byte>, n: nat)
    requires Whole(sb, bgdt) && 32 * n <= |bgdt|
    ensures DescriptorTable(LayoutOf(sb, bgdt), Column(bgdt, 12, 2), Tails(bgdt), n) == bgdt[..32 * n]
  {
    hide GeometryOf, DescriptorBytes;
    if n > 0 {
      DescriptorsKept(sb, bgdt, n - 1);
      DescriptorKept(sb, bgdt, n - 1);
      assert bgdt[..32 * n] == bgdt[..32 * (n - 1)] + bgdt[32 * (n - 1)..32 * n];
    }
  }

  lemma DescriptorKept(sb: Super, bgdt: seq<byte>, g: nat)
    requires Whole(sb, bgdt) && 32 * g + 32 <= |bgdt|
    ensures DescriptorBytes(LayoutOf(sb, bgdt), Column(bgdt, 12, 2)[g], Tails(bgdt)[g], g) == bgdt[32 * g..32 * g + 32]
  {
    hide GeometryOf, Le;
    var o := 32 * g;
    LeVal(bgdt[o..o + 4]);
    LeVal(bgdt[o + 4..o + 8]);
    LeVal(bgdt[o + 8..o + 12]);
    LeVal(bgdt[o + 12..o + 14]);
    assert Le(4, Field(bgdt, o, 4)) == bgdt[o..o + 4] && Le(4, Field(bgdt, o + 4, 4)) == bgdt[o + 4..o + 8];
    assert Le(4, Field(bgdt, o + 8, 4)) == bgdt[o + 8..o + 12] && Le(2, Field(bgdt, o + 12, 2)) == bgdt[o + 12..o + 14];
    FiveParts(bgdt, o);
  }

  lemma FiveParts(b: seq<byte>, o: nat)
    requires o + 32 <= |b|
    ensures b[o..o + 32] ==
      b[o..o + 4] + b[o + 4..o + 8] + b[o + 8..o + 12] + b[o + 12..o + 14] + b[o + 14..o + 32]
  {
  }

  /** A mount, with what is known of the volume. */
  method MountDisk(raw: seq<byte>, granted: bool, mem: nat -> byte, ghost kind: map<nat, Use>, ghost owned: set<nat>,
                   ghost ins: Inodes) returns (fs: Volume?)
    ensures fs == null <==> !Init(raw, granted, mem).Mounted?
    ensures fs != null ==> fresh(fs) && fs.kind == kind && fs.owned == owned && fs.ins == ins
    ensures var r := Init(raw, granted, mem);
            fs != null ==> Loaded(fs, r, raw)
  {
    fs := null;
    var r := Init(raw, granted, mem);
    if r.Mounted? {
      MountDescribes(raw, granted, mem);
      var l := LayoutOf(r.sb, r.bgdt);
      fs := new Volume(l, kind, r.sb[..12], r.sb[16..], Tails(r.bgdt), BlocksOf(raw, l.bs, l.total),
                       Column(r.bgdt, 12, 2), Field(r.sb, 12, 4), owned, ins);
    }
  }

  /** The volume is the one these bytes say. */
  ghost predicate Loaded(fs: Volume, r: Mount, raw: seq<byte>)
    reads fs
  {
    && Finds(r, fs.layout, fs.groupFree, fs.sbFree, fs.sbHead, fs.sbTail, fs.groupTails)
    && fs.disk == BlocksOf(raw, fs.layout.bs, fs.layout.total) && |fs.blockBuf| == |fs.indBuf| == fs.layout.bs
  }

  /** After a reboot everything is there that was on disk: the layout, the counts, the files. */
  method Reboot(fs: Volume, mem: nat -> byte) returns (fs': Volume?)
    requires fs.Valid() && fs.Mounted() && fs.AllStored() && fs.Synced()
      && Describes(fs.layout, fs.sbHead, fs.sbTail)
    ensures fs' != null && fresh(fs') && fs'.Valid() && fs'.Mounted() && fs'.AllStored() && fs'.Synced()
    ensures fs'.layout == fs.layout && fs'.disk == fs.disk && fs'.groupFree == fs.groupFree && fs'.sbFree == fs.sbFree
    ensures fs'.kind == fs.kind && fs'.owned == fs.owned && fs'.ins == fs.ins
    ensures Describes(fs'.layout, fs'.sbHead, fs'.sbTail)
  {
    hide Image, Init, LayoutOf, Column, Tails, Describes, Flushed, Padded, Claimed, Counted, LayoutOk, Trees, BlocksOf;
    Remount(fs.layout, fs.kind, fs.disk, fs.owned, fs.groupFree, fs.sbFree, fs.sbHead, fs.sbTail, fs.groupTails, mem);
    BlocksOfImage(fs.layout, fs.disk);
    fs' := MountDisk(Image(fs.disk, fs.layout.bs, fs.layout.total), true, mem, fs.kind, fs.owned, fs.ins);
  }
}
