/**
 * Block maps of ext2 inodes (kernel/fs/ext2.c): which disk block holds which
 * block of which file, through direct, indirect and doubly indirect pointers.
 */
module Ext2Blocks {
  import opened Arith
  import opened Bytes

  type Block = seq<byte>
  type Disk = map<nat, Block>

  const INODE_BYTES := 128

  /** struct ext2_inode, as the bytes it occupies. */
  type Inode = s: seq<byte> | |s| == INODE_BYTES witness Zeros(128)

  /** i_block[k]. */
  function Slot(i: Inode, k: nat): nat
    requires k < 15
  {
    Field(i, 40 + 4 * k, 4)
  }

  function WithSlot(i: Inode, k: nat, b: nat): Inode
    requires k < 15
  {
    PutField(i, 40 + 4 * k, 4, b)
  }

  /** i_mode. */
  function ModeOf(i: Inode): nat { Field(i, 0, 2) }

  /** i_size. */
  function SizeOf(i: Inode): nat { Field(i, 4, 4) }

  function WithSize(i: Inode, n: nat): Inode { PutField(i, 4, 4, n) }

  /** i_blocks. */
  function SectorsOf(i: Inode): nat { Field(i, 28, 4) }

  function WithSectors(i: Inode, n: nat): Inode { PutField(i, 28, 4, n) }

  /** i_blocks with one more block counted. */
  function MoreSectors(i: Inode, bs: nat): nat { (SectorsOf(i) + bs / 512) % 0x1_0000_0000 }

  /** Size and mode agree. */
  predicate SameKind(i: Inode, j: Inode) { SizeOf(i) == SizeOf(j) && ModeOf(i) == ModeOf(j) }

  /** Pointer `k` of a block of pointers. */
  function Word(b: Block, k: nat): nat
    requires 4 * k + 4 <= |b|
  {
    Field(b, 4 * k, 4)
  }

  function WithWord(b: Block, k: nat, v: nat): (r: Block)
    requires 4 * k + 4 <= |b|
    ensures |r| == |b|
  {
    PutField(b, 4 * k, 4, v)
  }

  lemma SlotUpdates(i: Inode, k: nat, b: nat, j: nat)
    requires k < 15 && j < 15 && b < 0x1_0000_0000
    ensures Slot(WithSlot(i, k, b), j) == if j == k then b else Slot(i, j)
    ensures SameKind(WithSlot(i, k, b), i) && SectorsOf(WithSlot(i, k, b)) == SectorsOf(i)
  {
    hide Field, PutField;
    assert Pow256(4) == 0x1_0000_0000;
    FieldOfPut(i, 40 + 4 * k, 4, b, 40 + 4 * j, 4);
    FieldOfPut(i, 40 + 4 * k, 4, b, 4, 4);
    FieldOfPut(i, 40 + 4 * k, 4, b, 28, 4);
    FieldOfPut(i, 40 + 4 * k, 4, b, 0, 2);
  }

  lemma SizeUpdates(i: Inode, n: nat, j: nat)
    requires n < 0x1_0000_0000 && j < 15
    ensures SizeOf(WithSize(i, n)) == n && ModeOf(WithSize(i, n)) == ModeOf(i) && Slot(WithSize(i, n), j) == Slot(i, j)
      && SectorsOf(WithSize(i, n)) == SectorsOf(i)
    ensures Slot(WithSectors(i, n), j) == Slot(i, j) && SameKind(WithSectors(i, n), i)
      && SectorsOf(WithSectors(i, n)) == n
  {
    hide Field, PutField;
    assert Pow256(4) == 0x1_0000_0000;
    FieldOfPut(i, 4, 4, n, 4, 4);
    FieldOfPut(i, 4, 4, n, 40 + 4 * j, 4);
    FieldOfPut(i, 28, 4, n, 40 + 4 * j, 4);
    FieldOfPut(i, 28, 4, n, 4, 4);
    FieldOfPut(i, 28, 4, n, 28, 4);
    FieldOfPut(i, 4, 4, n, 0, 2);
    FieldOfPut(i, 4, 4, n, 28, 4);
    FieldOfPut(i, 28, 4, n, 0, 2);
  }

  lemma SectorsFit(i: Inode)
    ensures SectorsOf(i) < 0x1_0000_0000
  {
    ValBound(i[28..32]);
    assert Pow256(4) == 0x1_0000_0000;
  }

  lemma WordUpdates(b: Block, k: nat, v: nat, j: nat)
    requires 4 * k + 4 <= |b| && 4 * j + 4 <= |b| && v < 0x1_0000_0000
    ensures Word(WithWord(b, k, v), j) == if j == k then v else Word(b, j)
  {
    hide Field, PutField;
    assert Pow256(4) == 0x1_0000_0000;
    FieldOfPut(b, 4 * k, 4, v, 4 * j, 4);
  }

  /** ptrs_per_block. */
  function Ptrs(bs: nat): nat { bs / 4 }

  /** A pointer: a slot of an inode, or an entry of the pointer block another pointer names. */
  datatype Place = InSlot(file: nat, k: nat) | InTable(of: Place, j: nat)

  /** The slot leads to a block of pointers. */
  predicate IsTable(p: Place) {
    match p
    case InSlot(_, k) => 12 <= k
    case InTable(of, _) => of.InSlot? && of.k == 13
  }

  /** The pointers the code follows, for blocks of `n` pointers. */
  predicate IsPlace(p: Place, n: nat) {
    match p
    case InSlot(_, k) => k < 14
    case InTable(of, j) => IsPlace(of, n) && IsTable(of) && j < n
  }

  /** Where the pointer to block `i` of file `f` is kept; past the doubly indirect range, nowhere. */
  function PlaceOf(f: nat, i: nat, n: nat): Place {
    if i < 12 then InSlot(f, i)
    else if i - 12 < n then InTable(InSlot(f, 12), i - 12)
    else if i - 12 - n < n * n then InTable(InTable(InSlot(f, 13), (i - 12 - n) / n), (i - 12 - n) % n)
    else InSlot(f, 14)
  }

  /** Within the range the block map covers, a block has a pointer of its own, which is not a table. */
  lemma PlaceOfIsLeaf(f: nat, i: nat, n: nat)
    requires i < 12 + n + n * n
    ensures IsPlace(PlaceOf(f, i, n), n) && !IsTable(PlaceOf(f, i, n))
  {
    if i >= 12 + n {
      QuotientBelow(i - 12 - n, n, n);
    }
  }

  lemma PlaceOfInjective(f: nat, i: nat, g: nat, j: nat, n: nat)
    requires PlaceOf(f, i, n) == PlaceOf(g, j, n) && IsPlace(PlaceOf(f, i, n), n)
    ensures f == g && i == j
  {
    if i >= 12 + n {
      assert i - 12 - n == n * ((i - 12 - n) / n) + (i - 12 - n) % n;
      assert j - 12 - n == n * ((j - 12 - n) / n) + (j - 12 - n) % n;
    }
  }

  /** The block number at a place; 0 for none. */
  ghost function At(d: Disk, ins: map<nat, Inode>, p: Place): nat {
    match p
    case InSlot(f, k) => if f in ins && k < 14 then Slot(ins[f], k) else 0
    case InTable(of, j) =>
      var b := At(d, ins, of);
      if b == 0 || b !in d || 4 * j + 4 > |d[b]| then 0 else Word(d[b], j)
  }

  /** The contents of block `i` of file `f`: a hole reads as zeros. */
  ghost function Content(d: Disk, ins: map<nat, Inode>, f: nat, i: nat, bs: nat): Block {
    var b := At(d, ins, PlaceOf(f, i, Ptrs(bs)));
    if b == 0 || b !in d then Zeros(bs) else d[b]
  }

  /** No block is named by two pointers; every block named is one of `owned`. */
  ghost predicate Trees(d: Disk, ins: map<nat, Inode>, n: nat, owned: set<nat>) {
    && (forall p :: IsPlace(p, n) && At(d, ins, p) != 0 ==> At(d, ins, p) in owned && At(d, ins, p) in d)
    && (forall p, q :: IsPlace(p, n) && IsPlace(q, n) && At(d, ins, p) == At(d, ins, q) != 0 ==> p == q)
  }

  /** Every pointer reads the same, but for the one at `p`, which now reads `b`. */
  ghost predicate Repointed(d: Disk, ins: map<nat, Inode>, d': Disk, ins': map<nat, Inode>, n: nat, p: Place, b: nat) {
    forall q :: IsPlace(q, n) ==> At(d', ins', q) == if q == p then b else At(d, ins, q)
  }

  /** Every pointer reads the same. */
  ghost predicate SamePointers(d: Disk, ins: map<nat, Inode>, d': Disk, ins': map<nat, Inode>, n: nat) {
    forall q :: IsPlace(q, n) ==> At(d', ins', q) == At(d, ins, q)
  }

  /** Blocks of pointers are untouched. */
  ghost predicate TablesKept(d: Disk, ins: map<nat, Inode>, d': Disk, n: nat) {
    forall p :: IsPlace(p, n) && IsTable(p) && At(d, ins, p) != 0 && At(d, ins, p) in d ==>
      At(d, ins, p) in d' && d'[At(d, ins, p)] == d[At(d, ins, p)]
  }

  lemma {:induction false} KeptAt(d: Disk, ins: map<nat, Inode>, d': Disk, n: nat, q: Place)
    requires TablesKept(d, ins, d', n) && d.Keys == d'.Keys && IsPlace(q, n)
    ensures At(d', ins, q) == At(d, ins, q)
  {
    match q
    case InSlot(_, _) =>
    case InTable(of, _) => KeptAt(d, ins, d', n, of);
  }

  lemma PointersKept(d: Disk, ins: map<nat, Inode>, d': Disk, n: nat)
    requires TablesKept(d, ins, d', n) && d.Keys == d'.Keys
    ensures SamePointers(d, ins, d', ins, n)
  {
    forall q | IsPlace(q, n) ensures At(d', ins, q) == At(d, ins, q) {
      KeptAt(d, ins, d', n, q);
    }
  }

  /** Filling an empty slot of an inode; a new pointer block must be blank. */
  lemma {:induction false} SlotAt(d: Disk, ins: map<nat, Inode>, n: nat, f: nat, k: nat, b: nat, q: Place)
    requires f in ins && k < 14 && Slot(ins[f], k) == 0 && 0 < b < 0x1_0000_0000 && b in d && IsPlace(q, n)
    requires k >= 12 ==> |d[b]| == 4 * n && d[b] == Zeros(4 * n)
    ensures At(d, ins[f := WithSlot(ins[f], k, b)], q) == if q == InSlot(f, k) then b else At(d, ins, q)
  {
    hide Slot, WithSlot, Word;
    match q
    case InSlot(g, j) => SlotUpdates(ins[f], k, b, j);
    case InTable(of, j) =>
      SlotAt(d, ins, n, f, k, b, of);
      if of == InSlot(f, k) {
        BlankWord(n, j);
      }
  }

  lemma BlankWord(n: nat, j: nat)
    requires j < n
    ensures Word(Zeros(4 * n), j) == 0
  {
    FieldZeros(4 * n, 4 * j, 4);
  }

  lemma SlotFilled(d: Disk, ins: map<nat, Inode>, n: nat, f: nat, k: nat, b: nat)
    requires f in ins && k < 14 && Slot(ins[f], k) == 0 && 0 < b < 0x1_0000_0000 && b in d
    requires k >= 12 ==> |d[b]| == 4 * n && d[b] == Zeros(4 * n)
    ensures Repointed(d, ins, d, ins[f := WithSlot(ins[f], k, b)], n, InSlot(f, k), b)
  {
    hide At, Slot;
    var ins' := ins[f := WithSlot(ins[f], k, b)];
    forall q | IsPlace(q, n) ensures At(d, ins', q) == if q == InSlot(f, k) then b else At(d, ins, q) {
      SlotAt(d, ins, n, f, k, b, q);
    }
  }

  /** Filling an empty entry of the indirect block of a file. */
  lemma {:induction false} EntryAt(d: Disk, ins: map<nat, Inode>, n: nat, owned: set<nat>, p: Place, j: nat, b: nat,
                                   q: Place)
    requires Trees(d, ins, n, owned) && IsPlace(InTable(p, j), n) && !IsTable(InTable(p, j)) && IsPlace(q, n)
    requires At(d, ins, p) != 0 && |d[At(d, ins, p)]| == 4 * n && 0 < b < 0x1_0000_0000
    ensures var t := At(d, ins, p);
            At(d[t := WithWord(d[t], j, b)], ins, q) == if q == InTable(p, j) then b else At(d, ins, q)
  {
    hide Word, WithWord;
    match q
    case InSlot(_, _) =>
    case InTable(of, i) =>
      EntryAt(d, ins, n, owned, p, j, b, of);
      var t := At(d, ins, p);
      if At(d, ins, of) == t {
        assert of == p;
        WordUpdates(d[t], j, b, i);
      }
  }

  lemma EntryFilled(d: Disk, ins: map<nat, Inode>, n: nat, owned: set<nat>, p: Place, j: nat, b: nat)
    requires Trees(d, ins, n, owned) && IsPlace(InTable(p, j), n) && !IsTable(InTable(p, j))
    requires At(d, ins, p) != 0 && |d[At(d, ins, p)]| == 4 * n && 0 < b < 0x1_0000_0000
    ensures var t := At(d, ins, p);
            Repointed(d, ins, d[t := WithWord(d[t], j, b)], ins, n, InTable(p, j), b)
  {
    var t := At(d, ins, p);
    var d' := d[t := WithWord(d[t], j, b)];
    hide At, Trees;
    forall q | IsPlace(q, n) ensures At(d', ins, q) == if q == InTable(p, j) then b else At(d, ins, q) {
      EntryAt(d, ins, n, owned, p, j, b, q);
    }
  }

  /** Hanging a block nobody names yet on an empty pointer. */
  lemma TreesGrow(d: Disk, ins: map<nat, Inode>, d': Disk, ins': map<nat, Inode>, n: nat, owned: set<nat>, p: Place,
                  b: nat)
    requires Trees(d, ins, n, owned) && Repointed(d, ins, d', ins', n, p, b) && d'.Keys == d.Keys
    requires b !in owned && b in d
    ensures Trees(d', ins', n, owned + {b})
  {
    hide At;
  }

  lemma TreesStay(d: Disk, ins: map<nat, Inode>, d': Disk, ins': map<nat, Inode>, n: nat, owned: set<nat>)
    requires Trees(d, ins, n, owned) && SamePointers(d, ins, d', ins', n) && d'.Keys == d.Keys
    ensures Trees(d', ins', n, owned)
  {
    hide At;
  }

  /** Writing a block that holds no pointers of the files, such as file data or metadata. */
  lemma UnnamedWrite(d: Disk, ins: map<nat, Inode>, n: nat, owned: set<nat>, b: nat, c: Block)
    requires Trees(d, ins, n, owned) && b in d && b !in owned
    ensures SamePointers(d, ins, d[b := c], ins, n)
  {
    hide At;
    var d' := d[b := c];
    assert TablesKept(d, ins, d', n);
    PointersKept(d, ins, d', n);
  }

  lemma LeafWrite(d: Disk, ins: map<nat, Inode>, n: nat, owned: set<nat>, p: Place, c: Block)
    requires Trees(d, ins, n, owned) && IsPlace(p, n) && !IsTable(p) && At(d, ins, p) != 0
    ensures SamePointers(d, ins, d[At(d, ins, p) := c], ins, n)
  {
    hide At;
    var d' := d[At(d, ins, p) := c];
    assert TablesKept(d, ins, d', n);
    PointersKept(d, ins, d', n);
  }
}
