/**
 * A small volume with one block free: an empty file, and a directory whose twelve direct
 * blocks are full. Two writes on it report success and lose what was written.
 */
module Ext2Sample {
  import opened Bytes
  import opened Ext2Blocks
  import opened Ext2Layout
  import opened Ext2Steps
  import opened Ext2
  import opened Ext2Files
  import opened Ext2Records
  import opened Ext2Names
  import opened Ext2Dir

  /**
   * Blocks 1 to 5: superblock, descriptors, block bitmap, inode bitmap, inode table; 6 to 17:
   * the directory; 18 is free.
   */
  const LAYOUT := Layout(1024, 1, 18, 8, 128, 19, [3], [4], [5])

  const KIND := map[1 := Super, 2 := Descriptors, 3 := BlockMap(0), 4 := InodeMap(0), 5 := Table(0, 0)]

  /** The bitmap with the first seventeen bits set. */
  const BITMAP: Block := [255, 255, 1] + Zeros(1021)

  const EMPTY: Inode := Zeros(128)

  /** Mode, size and block pointers of the directory. */
  function DirByte(i: nat): byte {
    if i == 1 then 64 else if i == 5 then 48 else if 40 <= i < 88 && i % 4 == 0 then 6 + (i - 40) / 4 else 0
  }

  function Directory(): Inode { seq(128, (i: nat) => DirByte(i)) }

  /** The bytes of a deleted entry of `256 + low` bytes that had a name of 255. */
  function Deleted(low: byte): seq<byte> { [0, 0, 0, 0, low, 1, 255, 0] + Zeros(248 + low) }

  function Gone(low: byte): Rec { Rec(0, 256 + low, 0, Zeros(255)) }

  /** A block of the directory: three such entries. */
  const FULL: Block := Deleted(84) + Deleted(84) + Deleted(88)
  const RECORDS: seq<Rec> := [Gone(84), Gone(84), Gone(88)]
  function Lists(): seq<seq<Rec>> { seq(12, _ => RECORDS) }

  function BlockAt(n: nat): Block {
    if n == 3 then BITMAP else if n == 5 then EMPTY + Directory() + Zeros(768) else if 6 <= n < 18 then FULL
      else Zeros(1024)
  }

  function Sample(): Disk { map n: nat | 0 <= n < 19 :: BlockAt(n) }

  function Files(): Inodes { map[1 := EMPTY, 2 := Directory()] }

  const OWNED: set<nat> := {6, 7, 8, 9, 10, 11, 12, 13, 14, 15, 16, 17}

  lemma SampleDisk()
    ensures DiskOk(LAYOUT, Sample()) && Sample()[3] == BITMAP && Sample()[5] == EMPTY + Directory() + Zeros(768)
    ensures forall n :: n in OWNED ==> n in Sample() && Sample()[n] == FULL
  {
  }

  lemma LayoutFits()
    ensures LayoutOk(LAYOUT, KIND)
  {
    assert TableLength(LAYOUT) == 1;
    assert TableBlock(LAYOUT, 0, 0) == 5;
  }

  // ----- the block bitmap -----

  /** The number whose `n` low bits are set. */
  function Ones(n: nat): nat { if n == 0 then 0 else 2 * Ones(n - 1) + 1 }

  lemma {:induction false} OnesSet(n: nat, k: nat)
    requires k < n
    ensures TestBit(Ones(n), k)
  {
    if 0 < k {
      OnesSet(n - 1, k - 1);
    }
  }

  lemma BitmapBits(i: nat)
    requires i < 18
    ensures BitAt(BITMAP, i) == (i < 17)
  {
    assert Ones(2) == 3 && Ones(4) == 15 && Ones(6) == 63 && Ones(8) == 255;
    if i < 16 {
      OnesSet(8, i % 8);
    } else {
      assert TestBit(1, 0) && !TestBit(0, 0);
    }
  }

  lemma {:induction false} BitmapCount(n: nat)
    requires n <= 17
    ensures ClearBits(BITMAP, n) == 0
  {
    hide BitAt;
    if 0 < n {
      BitmapCount(n - 1);
      BitmapBits(n - 1);
    }
  }

  lemma BitmapMarks(g: nat, i: nat)
    requires g < 1 && i < 18
    ensures Marked(LAYOUT, Sample(), g, i) == (i < 17) && BlockNo(LAYOUT, g, i) == i + 1
  {
    hide BitAt;
    SampleDisk();
    BitmapBits(i);
  }

  lemma SampleCounted()
    ensures Counted(LAYOUT, Sample(), [1], 1)
  {
    hide BlockAt, ClearBits;
    SampleDisk();
    LastBit();
    assert Sum([1]) == 1 by { assert [1][..0] == []; }
  }

  lemma BlockUsed(n: nat)
    requires 1 <= n < 18
    ensures InUse(LAYOUT, Sample(), n)
  {
    hide Marked, BlockNo;
    BitmapMarks(0, n - 1);
  }

  lemma SampleClaimed()
    ensures Claimed(LAYOUT, KIND, Sample(), OWNED)
  {
    hide InUse;
    forall n: nat | 1 <= n < 18 ensures InUse(LAYOUT, Sample(), n) {
      BlockUsed(n);
    }
  }

  lemma SampleVolume()
    ensures VolumeOk(LAYOUT, KIND, Sample(), OWNED, [1], 1)
  {
    hide Marked, BlockAt, BlockNo, Counted, Claimed, LayoutOk;
    LayoutFits();
    SampleDisk();
    SampleCounted();
    SampleClaimed();
    forall g: nat, i: nat | g < 1 && i < 18 && !Marked(LAYOUT, Sample(), g, i) ensures 0 < BlockNo(LAYOUT, g, i) < 19 {
      BitmapMarks(g, i);
    }
  }

  lemma LastBit()
    ensures ClearBits(BITMAP, 18) == 1
  {
    hide BitAt;
    BitmapCount(17);
    BitmapBits(17);
  }

  // ----- the inodes -----

  lemma EmptySlots()
    ensures SizeOf(EMPTY) == 0 && forall k :: 0 <= k < 14 ==> Slot(EMPTY, k) == 0
  {
    FieldZeros(128, 4, 4);
    forall k | 0 <= k < 14 ensures Slot(EMPTY, k) == 0 {
      FieldZeros(128, 40 + 4 * k, 4);
    }
  }

  lemma DirectorySlot(k: nat)
    requires k < 14
    ensures Slot(Directory(), k) == if k < 12 then 6 + k else 0
  {
    var s := Directory()[40 + 4 * k..44 + 4 * k];
    assert s == [if k < 12 then 6 + k else 0, 0, 0, 0];
    ValZeros(s[1..]);
  }

  lemma DirectorySize()
    ensures SizeOf(Directory()) == 12 * 1024
  {
    var s := Directory()[4..8];
    assert s == [0, 48, 0, 0];
    ValZeros(s[2..]);
    assert Val(s[1..]) == 48;
  }

  lemma {:induction false} PointersAre(p: Place)
    requires IsPlace(p, 256)
    ensures At(Sample(), Files(), p) == if p.InSlot? && p.file == 2 && p.k < 12 then 6 + p.k else 0
  {
    hide Slot;
    match p
    case InSlot(f, k) =>
      EmptySlots();
      DirectorySlot(k);
    case InTable(of, _) => PointersAre(of);
  }

  lemma SampleTrees()
    ensures Trees(Sample(), Files(), Ptrs(1024), OWNED)
  {
    hide At;
    SampleDisk();
    forall p | IsPlace(p, 256)
      ensures At(Sample(), Files(), p) == if p.InSlot? && p.file == 2 && p.k < 12 then 6 + p.k else 0 {
      PointersAre(p);
    }
  }

  lemma InodeHome(f: nat)
    requires f == 1 || f == 2
    ensures IsInode(LAYOUT, f) && InodeBlock(LAYOUT, f) == 5 && InodeOffset(LAYOUT, f) == (f - 1) * 128
  {
  }

  lemma SampleInodes()
    ensures StoredBut(LAYOUT, KIND, Sample(), Files(), 0)
  {
    hide LayoutOk, DiskOk, BlockAt;
    LayoutFits();
    SampleDisk();
    InodeHome(1);
    InodeHome(2);
    assert OnDisk(LAYOUT, KIND, Sample(), 1) == EMPTY;
    assert OnDisk(LAYOUT, KIND, Sample(), 2) == Directory();
  }

  /** The sample is a consistent volume with its inodes on disk, so the properties of volumes speak of something. */
  lemma SampleGood()
    ensures Good(LAYOUT, KIND, Sample(), OWNED, [1], 1, Files()) && StoredBut(LAYOUT, KIND, Sample(), Files(), 0)
  {
    hide VolumeOk, Trees, StoredBut;
    SampleVolume();
    SampleTrees();
    SampleInodes();
  }

  // ----- a write to block 12 of a file -----

  /** The block written: no byte of it is zero. */
  const DATA: seq<byte> := seq(1024, _ => 1)

  lemma HoleReads(d: Disk, ins: Inodes)
    requires 1 in ins && SizeOf(ins[1]) == 13 * 1024 && Content(d, ins, 1, 12, 1024) == Zeros(1024)
    ensures Range(File(d, ins, 1, 1024), 12 * 1024, 1024) == Zeros(1024)
  {
    hide Content, SizeOf;
    var r := Range(File(d, ins, 1, 1024), 12 * 1024, 1024);
    forall j | 0 <= j < 1024 ensures r[j] == 0 {
      assert r[j] == ByteAt(d, ins, 1, 12 * 1024 + j, 1024);
    }
  }

  /** On the sample a write to block 12 reports that all of its bytes were written; reading them back gives zeros. */
  method LostBlock() returns (count: int, back: seq<byte>)
    ensures count == |DATA| == 1024 && back == Zeros(1024) != DATA
  {
    hide Good, StoredBut, Outcome, File, SizeOf, Slot, Content;
    SampleGood();
    var fs := new Volume(LAYOUT, KIND, Zeros(12), Zeros(188), [Zeros(18)], Sample(), [1], 1, OWNED, Files());
    StoredWeaker(LAYOUT, KIND, Sample(), Files(), 1);
    EmptySlots();
    var inode;
    ghost var done, lost, hole;
    inode, count, done, lost, hole := WriteFile(fs, 1, EMPTY, 12 * 1024, DATA);
    IndirectWriteLost(Sample(), Files(), fs.disk, fs.ins, 1024, 1, EMPTY, DATA, done, lost, hole);
    back := ReadFile(fs, inode, 12 * 1024, 1024, 1);
    HoleReads(fs.disk, fs.ins);
    assert Zeros(1024)[0] != DATA[0];
  }

  // ----- a name for the full directory -----

  lemma GoneAt(b: seq<byte>, o: nat, low: byte)
    requires o + 256 + low <= |b| && b[o..o + 256 + low] == Deleted(low) && 7 < low
    ensures IsAt(b, o, Gone(low)) && RecOk(Gone(low))
  {
    var s, n := b[o..o + 256 + low], 256 + low;
    SubSlice(b, o, n, 0, 4);
    assert s[0..4] == [0, 0, 0, 0];
    ValZeros(s[0..4]);
    SubSlice(b, o, n, 4, 6);
    assert s[4..6] == [low, 1] && [low, 1][1..] == [1] && Val([1]) == 1;
    assert b[o + 6] == s[6] && b[o + 7] == s[7];
    SubSlice(b, o, n, 8, 263);
    assert s[8..263] == Zeros(255);
  }

  lemma FullReads()
    ensures |FULL| == 1024 && Reads(FULL, 0, 1024, RECORDS)
  {
    hide IsAt, RecOk;
    assert FULL[0..340] == Deleted(84) && FULL[340..680] == Deleted(84) && FULL[680..1024] == Deleted(88);
    GoneAt(FULL, 0, 84);
    GoneAt(FULL, 340, 84);
    GoneAt(FULL, 680, 88);
    assert RECORDS[1..] == [Gone(84), Gone(88)] && RECORDS[1..][1..] == [Gone(88)];
    assert Reads(FULL, 680, 1024, [Gone(88)]);
    assert Reads(FULL, 340, 1024, RECORDS[1..]);
  }

  lemma {:induction false} NoEntries(rs: seq<Rec>)
    requires forall i :: 0 <= i < |rs| ==> rs[i].ino == 0
    ensures Pairs(rs) == []
  {
    if rs != [] {
      NoEntries(rs[..|rs| - 1]);
    }
  }

  lemma {:induction false} FlatGone(lists: seq<seq<Rec>>)
    requires forall i :: 0 <= i < |lists| ==> lists[i] == RECORDS
    ensures forall i :: 0 <= i < |Flat(lists)| ==> Flat(lists)[i].ino == 0
  {
    if lists != [] {
      FlatGone(lists[..|lists| - 1]);
    }
  }

  lemma NoNames()
    ensures Entries(Lists()) == []
  {
    FlatGone(Lists());
    NoEntries(Flat(Lists()));
  }

  lemma NothingPast(i: nat)
    requires 12 <= i
    ensures At(Sample(), Files(), PlaceOf(2, i, 256)) == 0
  {
    hide At;
    if i < 12 + 256 + 256 * 256 {
      PlaceOfIsLeaf(2, i, 256);
      PointersAre(PlaceOf(2, i, 256));
    } else {
      NoSuchSlot();
    }
  }

  lemma NoSuchSlot()
    ensures At(Sample(), Files(), InSlot(2, 14)) == 0
  {
  }

  lemma SampleDirectory()
    ensures IsDirectory(Sample(), Files(), 2, 1024, Lists()) && DirNames(Lists()) == map[]
  {
    hide At, SizeOf, Reads, Entries;
    NoNames();
    DirectorySize();
    SampleDisk();
    FullReads();
    forall i: nat | i < 12 ensures HoldsList(Sample(), Files(), 2, i, 1024, Lists()[i]) {
      PointersAre(InSlot(2, i));
    }
    forall i: nat | 12 <= i ensures At(Sample(), Files(), PlaceOf(2, i, 256)) == 0 {
      NothingPast(i);
    }
  }

  /** No record has room for a name of 100 bytes, and the directory cannot grow. */
  lemma NoPlaceForName()
    ensures !CanTake(DirOf(Files(), 2, Lists(), 1), 100, 1024)
    ensures Added(DirOf(Files(), 2, Lists(), 1), 1, 1, NAME, 1024).lists == Lists()
  {
    hide Slot, FirstList;
    DirectorySlot(12);
    assert forall i :: 0 <= i < 12 ==> Lacks(Lists()[i], Space(100));
    FirstNone(Lists(), Space(100));
  }

  const NAME: Name := seq(100, _ => 97)

  /** On the sample adding a name to the directory reports success, and no block of the directory has it. */
  method LostEntry() returns (r: int, fs: Volume)
    ensures r == 0 && Stretched(fs.disk, fs.ins, 2, 1024, Lists()) && NAME !in DirNames(Lists())
  {
    hide Good, StoredBut, IsDirectory, CanTake, Stretched, DirNames, Added, DirOf;
    SampleGood();
    SampleDirectory();
    NoPlaceForName();
    fs := new Volume(LAYOUT, KIND, Zeros(12), Zeros(188), [Zeros(18)], Sample(), [1], 1, OWNED, Files());
    var lost;
    DirIs(Files(), 2, Lists(), 1);
    r, lost := AddEntry(fs, 2, 1, NAME, 1, Lists());
  }
}
