/**
 * The structures of kernel/fs/ext2.h, written out field by field: what the mount reads as
 * the geometry of a volume and what the code reads as size, mode and pointers of an inode
 * are the fields of those names.
 */
module Ext2Format {
  import opened Arith
  import opened Bytes
  import opened Ext2Blocks
  import opened Ext2Layout
  import opened Ext2Mount

  // ----- packed structures -----

  /** Where field `k` of a packed structure with fields of these widths begins. */
  function Offset(widths: seq<nat>, k: nat): nat
    requires k <= |widths|
  {
    if k == 0 then 0 else Offset(widths, k - 1) + widths[k - 1]
  }

  /** The first `n` fields, one after the other. */
  function Packed(widths: seq<nat>, values: seq<nat>, n: nat): (r: seq<byte>)
    requires n <= |widths| == |values|
    ensures |r| == Offset(widths, n)
  {
    if n == 0 then [] else Packed(widths, values, n - 1) + Le(widths[n - 1], values[n - 1])
  }

  /** Each value fits its field. */
  predicate InRange(widths: seq<nat>, values: seq<nat>) {
    |widths| == |values| && forall k :: 0 <= k < |widths| ==> values[k] < Pow256(widths[k])
  }

  /** The bytes of field `k`, in a structure of `n` fields with anything behind it. */
  lemma {:induction false} FieldAt(widths: seq<nat>, values: seq<nat>, n: nat, k: nat, rest: seq<byte>)
    requires k < n <= |widths| && InRange(widths, values)
    ensures Offset(widths, k) + widths[k] <= Offset(widths, n)
    ensures Field(Packed(widths, values, n) + rest, Offset(widths, k), widths[k]) == values[k]
    decreases n
  {
    var s, w := Packed(widths, values, n - 1), Le(widths[n - 1], values[n - 1]);
    assert s + w + rest == s + (w + rest);
    if k == n - 1 {
      assert (s + w + rest)[|s|..|s| + |w|] == w;
      ValLe(widths[k], values[k]);
    } else {
      FieldAt(widths, values, n - 1, k, w + rest);
    }
  }

  /** Numbers are stored least significant byte first. */
  lemma LittleEndian(s: seq<byte>, off: nat)
    requires off + 4 <= |s|
    ensures var a: nat, b: nat, c: nat, d: nat := s[off], s[off + 1], s[off + 2], s[off + 3];
            && Field(s, off, 2) == a + 0x100 * b
            && Field(s, off, 4) == a + 0x100 * b + 0x1_0000 * c + 0x100_0000 * d
  {
    var t, u := s[off..off + 4], s[off..off + 2];
    assert Val(t[4..]) == 0 && Val(u[2..]) == 0;
    assert Val(t[3..]) == t[3] by { assert t[3..][1..] == []; }
    assert Val(t[2..]) == t[2] + 256 * Val(t[3..]) by { assert t[2..][1..] == t[3..]; }
    assert Val(t[1..]) == t[1] + 256 * Val(t[2..]) by { assert t[1..][1..] == t[2..]; }
    assert Val(u[1..]) == u[1] by { assert u[1..][1..] == []; }
  }

  // ----- struct ext2_superblock, to s_inode_size -----

  const SUPER_WIDTHS: seq<nat> := [4, 4, 4, 4, 4, 4, 4, 4, 4, 4, 4, 4, 4, 2, 2, 2, 2, 2, 2, 4, 4, 4, 4, 2, 2, 4, 2]

  // the positions of the fields the mount reads
  const S_BLOCKS_COUNT := 1
  const S_FREE_BLOCKS_COUNT := 3
  const S_FIRST_DATA_BLOCK := 5
  const S_LOG_BLOCK_SIZE := 6
  const S_BLOCKS_PER_GROUP := 8
  const S_INODES_PER_GROUP := 10
  const S_MAGIC := 15
  const S_REV_LEVEL := 22
  const S_INODE_SIZE := 26

  lemma SuperOffsets()
    ensures Offset(SUPER_WIDTHS, 1) == 4 && Offset(SUPER_WIDTHS, 3) == 12 && Offset(SUPER_WIDTHS, 5) == 20
    ensures Offset(SUPER_WIDTHS, 6) == 24 && Offset(SUPER_WIDTHS, 8) == 32 && Offset(SUPER_WIDTHS, 10) == 40
    ensures Offset(SUPER_WIDTHS, 15) == 56 && Offset(SUPER_WIDTHS, 22) == 76 && Offset(SUPER_WIDTHS, 26) == 88
    ensures Offset(SUPER_WIDTHS, 27) == 90
  {
    hide Offset;
    var w := SUPER_WIDTHS;
    assert w[13] == w[14] == w[15] == w[16] == w[17] == w[18] == 2;
    assert w[19] == w[20] == w[21] == w[22] == 4 && w[23] == w[24] == 2 && w[25] == 4 && w[26] == 2;
    WordFields(w, 13);
    AfterWriteTime(w);
    AfterMinorLevel(w);
  }

  lemma AfterWriteTime(w: seq<nat>)
    requires |w| == 27 && Offset(w, 13) == 52 && w[13] == w[14] == w[15] == w[16] == w[17] == w[18] == 2
    ensures Offset(w, 15) == 56 && Offset(w, 19) == 64
  {
    assert Offset(w, 14) == 54 && Offset(w, 15) == 56;
    assert Offset(w, 16) == 58 && Offset(w, 17) == 60;
    assert Offset(w, 18) == 62;
  }

  lemma AfterMinorLevel(w: seq<nat>)
    requires |w| == 27 && Offset(w, 19) == 64 && w[19] == w[20] == w[21] == w[22] == 4
    requires w[23] == w[24] == 2 && w[25] == 4 && w[26] == 2
    ensures Offset(w, 22) == 76 && Offset(w, 26) == 88 && Offset(w, 27) == 90
  {
    assert Offset(w, 20) == 68 && Offset(w, 21) == 72;
    assert Offset(w, 22) == 76 && Offset(w, 23) == 80;
    assert Offset(w, 24) == 82 && Offset(w, 25) == 84;
    assert Offset(w, 26) == 88;
  }

  /** Fields of four bytes each. */
  lemma {:induction false} WordFields(w: seq<nat>, n: nat)
    requires n <= |w| && forall k :: 0 <= k < n ==> w[k] == 4
    ensures forall k :: 0 <= k <= n ==> Offset(w, k) == 4 * k
  {
    if n > 0 {
      WordFields(w, n - 1);
      assert Offset(w, n) == Offset(w, n - 1) + 4;
    }
  }

  /** A superblock with these values and anything behind its first fields. */
  function SuperOf(values: seq<nat>, rest: seq<byte>): Super
    requires |values| == 27 && |rest| == 114
  {
    SuperOffsets();
    Packed(SUPER_WIDTHS, values, 27) + rest
  }

  /** The mount takes each number from the field that holds it. */
  lemma GeometryIsFields(values: seq<nat>, rest: seq<byte>)
    requires InRange(SUPER_WIDTHS, values) && |rest| == 114
    ensures var g := GeometryOf(SuperOf(values, rest));
            && g.magic == values[S_MAGIC] && g.total == values[S_BLOCKS_COUNT] && g.first == values[S_FIRST_DATA_BLOCK]
            && g.bs == 1024 * Pow2(values[S_LOG_BLOCK_SIZE])
            && g.bpg == values[S_BLOCKS_PER_GROUP] && g.ipg == values[S_INODES_PER_GROUP]
            && g.isz == if values[S_REV_LEVEL] >= 1 then values[S_INODE_SIZE] else 128
    ensures Field(SuperOf(values, rest), 12, 4) == values[S_FREE_BLOCKS_COUNT]
  {
    hide Field, Packed, Pow2;
    SuperOffsets();
    FieldAt(SUPER_WIDTHS, values, 27, S_BLOCKS_COUNT, rest);
    FieldAt(SUPER_WIDTHS, values, 27, S_FREE_BLOCKS_COUNT, rest);
    FieldAt(SUPER_WIDTHS, values, 27, S_FIRST_DATA_BLOCK, rest);
    FieldAt(SUPER_WIDTHS, values, 27, S_LOG_BLOCK_SIZE, rest);
    FieldAt(SUPER_WIDTHS, values, 27, S_BLOCKS_PER_GROUP, rest);
    FieldAt(SUPER_WIDTHS, values, 27, S_INODES_PER_GROUP, rest);
    FieldAt(SUPER_WIDTHS, values, 27, S_MAGIC, rest);
    FieldAt(SUPER_WIDTHS, values, 27, S_REV_LEVEL, rest);
    FieldAt(SUPER_WIDTHS, values, 27, S_INODE_SIZE, rest);
  }

  // ----- struct ext2_inode, to i_block -----

  const INODE_WIDTHS: seq<nat> := [2, 2, 4, 4, 4, 4, 4, 2, 2, 4, 4, 4] + BLOCK_WIDTHS

  const BLOCK_WIDTHS: seq<nat> := [4, 4, 4, 4, 4, 4, 4, 4, 4, 4, 4, 4, 4, 4, 4]

  const I_MODE := 0
  const I_SIZE := 2
  const I_BLOCKS := 9
  const I_BLOCK := 12

  lemma {:induction false} PointerOffsets(k: nat)
    requires k <= 15
    ensures Offset(INODE_WIDTHS, 12 + k) == 40 + 4 * k
  {
    if k == 0 {
      InodeOffsets();
    } else {
      PointerOffsets(k - 1);
      assert INODE_WIDTHS[12 + k - 1] == BLOCK_WIDTHS[k - 1] == 4;
    }
  }

  lemma InodeOffsets()
    ensures Offset(INODE_WIDTHS, 0) == 0 && Offset(INODE_WIDTHS, 2) == 4 && Offset(INODE_WIDTHS, 9) == 28
    ensures Offset(INODE_WIDTHS, 12) == 40
  {
    var w := INODE_WIDTHS;
    assert w[0] == w[1] == 2 && w[2] == w[3] == w[4] == w[5] == w[6] == 4 && w[7] == w[8] == 2;
    assert w[9] == w[10] == w[11] == 4;
    assert Offset(w, 1) == 2 && Offset(w, 2) == 4;
    assert Offset(w, 3) == 8 && Offset(w, 4) == 12;
    assert Offset(w, 5) == 16 && Offset(w, 6) == 20;
    assert Offset(w, 7) == 24 && Offset(w, 8) == 26;
    assert Offset(w, 9) == 28 && Offset(w, 10) == 32;
    assert Offset(w, 11) == 36 && Offset(w, 12) == 40;
  }

  function InodeOf(values: seq<nat>, rest: seq<byte>): Inode
    requires |values| == 27 && |rest| == 28
  {
    PointerOffsets(15);
    Packed(INODE_WIDTHS, values, 27) + rest
  }

  /** Mode, size, sector count and pointers of an inode are the fields of those names. */
  lemma InodeIsFields(values: seq<nat>, rest: seq<byte>, k: nat)
    requires InRange(INODE_WIDTHS, values) && |rest| == 28 && k < 15
    ensures var i := InodeOf(values, rest);
            && ModeOf(i) == values[I_MODE] && SizeOf(i) == values[I_SIZE] && SectorsOf(i) == values[I_BLOCKS]
            && Slot(i, k) == values[I_BLOCK + k]
  {
    hide Field, Packed;
    InodeOffsets();
    PointerOffsets(k);
    assert INODE_WIDTHS[12 + k] == BLOCK_WIDTHS[k] == 4;
    FieldAt(INODE_WIDTHS, values, 27, I_MODE, rest);
    FieldAt(INODE_WIDTHS, values, 27, I_SIZE, rest);
    FieldAt(INODE_WIDTHS, values, 27, I_BLOCKS, rest);
    FieldAt(INODE_WIDTHS, values, 27, I_BLOCK + k, rest);
  }

  // ----- struct ext2_block_group_desc, to bg_free_blocks_count -----

  const GROUP_WIDTHS: seq<nat> := [4, 4, 4, 2]

  /** The table of descriptors before, one descriptor, and what follows. */
  function GroupsOf(before: seq<byte>, values: seq<nat>, rest: seq<byte>): (r: seq<byte>)
    requires |values| == 4
  {
    before + (Packed(GROUP_WIDTHS, values, 4) + rest)
  }

  /** Bitmaps, inode table and free count of group `g` are the fields of its descriptor. */
  lemma GroupIsFields(before: seq<byte>, values: seq<nat>, rest: seq<byte>, g: nat)
    requires InRange(GROUP_WIDTHS, values) && |before| == 32 * g && 18 <= |rest|
    ensures var r := GroupsOf(before, values, rest);
            && g < |r| / 32 && Column(r, 0, 4)[g] == values[0] && Column(r, 4, 4)[g] == values[1]
            && Column(r, 8, 4)[g] == values[2] && Column(r, 12, 2)[g] == values[3]
  {
    hide Packed;
    assert Offset(GROUP_WIDTHS, 2) == 8 && Offset(GROUP_WIDTHS, 4) == 14;
    var t := Packed(GROUP_WIDTHS, values, 4) + rest;
    Behind(before, t, 0, 4);
    Behind(before, t, 4, 4);
    Behind(before, t, 8, 4);
    Behind(before, t, 12, 2);
    hide Field;
    FieldAt(GROUP_WIDTHS, values, 4, 0, rest);
    FieldAt(GROUP_WIDTHS, values, 4, 1, rest);
    FieldAt(GROUP_WIDTHS, values, 4, 2, rest);
    FieldAt(GROUP_WIDTHS, values, 4, 3, rest);
  }

  lemma Behind(before: seq<byte>, t: seq<byte>, off: nat, n: nat)
    requires off + n <= |t|
    ensures Field(before + t, |before| + off, n) == Field(t, off, n)
  {
    assert (before + t)[|before| + off..|before| + off + n] == t[off..off + n];
  }

  // ----- where things are -----

  /** Inode 1 is first in the first table; the next is one inode size further, or first in the next group's table. */
  lemma InodesInOrder(l: Layout, f: nat)
    requires 0 < l.ipg && 0 < f
    ensures InodeGroup(l, 1) == 0 && InodeOffset(l, 1) == 0
    ensures if f % l.ipg != 0
            then InodeGroup(l, f + 1) == InodeGroup(l, f) && InodeOffset(l, f + 1) == InodeOffset(l, f) + l.isz
            else InodeGroup(l, f + 1) == InodeGroup(l, f) + 1 && InodeOffset(l, f + 1) == 0
  {
    var q, r := (f - 1) / l.ipg, (f - 1) % l.ipg;
    assert f - 1 == q * l.ipg + r;
    DivisionIs(0, l.ipg, 0, 0);
    if r + 1 < l.ipg {
      DivisionIs(f, l.ipg, q, r + 1);
      assert (r + 1) * l.isz == r * l.isz + l.isz;
    } else {
      assert (q + 1) * l.ipg == q * l.ipg + l.ipg;
      DivisionIs(f, l.ipg, q + 1, 0);
    }
  }

  /** The bits of the block bitmaps, group after group, stand for the blocks from the first data block on. */
  lemma BlocksInOrder(l: Layout, g: nat, i: nat)
    ensures BlockNo(l, 0, 0) == l.first && BlockNo(l, g, i + 1) == BlockNo(l, g, i) + 1
    ensures BlockNo(l, g + 1, 0) == BlockNo(l, g, l.bpg)
  {
    assert (g + 1) * l.bpg == g * l.bpg + l.bpg;
  }

  /**
   * The pointers of a file in order: the twelve of the inode, those of the block the
   * thirteenth names, and those of the blocks that the pointers of the block the
   * fourteenth names name.
   */
  lemma PointersInOrder(f: nat, i: nat, n: nat)
    requires 0 < n && i + 1 < 12 + n + n * n
    ensures PlaceOf(f, 0, n) == InSlot(f, 0)
    ensures PlaceOf(f, i + 1, n) ==
      match PlaceOf(f, i, n)
      case InSlot(_, k) => if k < 11 then InSlot(f, k + 1) else InTable(InSlot(f, 12), 0)
      case InTable(InSlot(_, _), j) =>
        if j + 1 < n then InTable(InSlot(f, 12), j + 1) else InTable(InTable(InSlot(f, 13), 0), 0)
      case InTable(InTable(_, t), j) =>
        if j + 1 < n then InTable(InTable(InSlot(f, 13), t), j + 1) else InTable(InTable(InSlot(f, 13), t + 1), 0)
  {
    if i >= 12 + n {
      var x := i - 12 - n;
      var q, r := x / n, x % n;
      assert x == q * n + r;
      if r + 1 < n {
        DivisionIs(x + 1, n, q, r + 1);
      } else {
        assert (q + 1) * n == q * n + n;
        DivisionIs(x + 1, n, q + 1, 0);
      }
    } else if i == 11 + n {
      DivisionIs(0, n, 0, 0);
    }
  }
}
