/** ext2_lookup, ext2_add_dir_entry and ext2_remove_dir_entry (kernel/fs/ext2.c): a directory is a finite map. */
module Ext2Dir {
  import opened Arith
  import opened Bytes
  import opened Ext2Blocks
  import opened Ext2Layout
  import opened Ext2Steps
  import opened Ext2
  import opened Ext2Files
  import opened Ext2Records
  import opened Ext2Names
  import Ext2Runs

  /** All records of a directory, block after block. */
  function Flat(lists: seq<seq<Rec>>): seq<Rec> {
    if lists == [] then [] else Flat(lists[..|lists| - 1]) + lists[|lists| - 1]
  }

  /** The live entries of a directory. */
  function Entries(lists: seq<seq<Rec>>): seq<Pair> { Pairs(Flat(lists)) }

  /** The directory as a map. */
  function DirNames(lists: seq<seq<Rec>>): map<Name, nat> { Names(Entries(lists)) }

  lemma FlatLast(lists: seq<seq<Rec>>, last: seq<Rec>)
    ensures Flat(lists + [last]) == Flat(lists) + last
  {
    assert (lists + [last])[..|lists|] == lists;
  }

  lemma {:induction false} FlatConcat(a: seq<seq<Rec>>, b: seq<seq<Rec>>)
    ensures Flat(a + b) == Flat(a) + Flat(b)
    decreases |b|
  {
    if b == [] {
      assert a + b == a;
    } else {
      hide Flat;
      var front, last := b[..|b| - 1], b[|b| - 1];
      assert b == front + [last] && a + b == (a + front) + [last];
      FlatLast(front, last);
      FlatLast(a + front, last);
      FlatConcat(a, front);
    }
  }

  lemma FlatOne(x: seq<Rec>)
    ensures Flat([x]) == x
  {
    assert [x][..0] == [];
  }

  /** The entries around those of block `i`. */
  lemma EntriesAround(lists: seq<seq<Rec>>, i: nat, x: seq<Rec>)
    requires i < |lists|
    ensures Entries(lists[i := x]) == Pairs(Flat(lists[..i])) + Pairs(x) + Pairs(Flat(lists[i + 1..]))
  {
    var a, b := lists[..i], lists[i + 1..];
    assert lists[i := x] == a + [x] + b;
    FlatConcat(a + [x], b);
    FlatConcat(a, [x]);
    FlatOne(x);
    PairsConcat(Flat(a) + x, Flat(b));
    PairsConcat(Flat(a), x);
  }

  /** Splitting a record of block `i` to make room for a new one adds exactly that name. */
  lemma AddName(lists: seq<seq<Rec>>, i: nat, before: seq<Rec>, r: Rec, after: seq<Rec>, ino: nat, kind: byte,
                name: Name)
    requires i < |lists| && lists[i] == before + [r] + after && RecOk(r) && ino != 0
    requires Distinct(Entries(lists)) && name !in DirNames(lists)
    ensures var lists' := lists[i := before + Halves(r, ino, kind, name) + after];
            Distinct(Entries(lists')) && DirNames(lists') == DirNames(lists)[name := ino]
  {
    hide Flat, Names, Distinct, Pairs;
    var h, p := Halves(r, ino, kind, name), Pair(name, ino);
    assert lists[i := lists[i]] == lists;
    EntriesAround(lists, i, lists[i]);
    EntriesAround(lists, i, before + h + after);
    ThreePairs(before, [r], after);
    ThreePairs(before, h, after);
    assert h == [h[0]] + [h[1]];
    PairsConcat([h[0]], [h[1]]);
    PairsOne(h[0]);
    PairsOne(h[1]);
    PairsOne(r);
    var x, y := Pairs(Flat(lists[..i])), Pairs(Flat(lists[i + 1..]));
    Regroup(x, Pairs(before), Own(r), [p], Pairs(after), y);
    Inserted(x + (Pairs(before) + Own(r)), Pairs(after) + y, p);
  }

  lemma ThreePairs(a: seq<Rec>, m: seq<Rec>, b: seq<Rec>)
    ensures Pairs(a + m + b) == Pairs(a) + Pairs(m) + Pairs(b)
  {
    PairsConcat(a + m, b);
    PairsConcat(a, m);
  }

  /** Replacing `out`, whose last record is live and whose others do not change, drops that name. */
  lemma DropName(lists: seq<seq<Rec>>, i: nat, before: seq<Rec>, out: seq<Rec>, r: Rec, put: seq<Rec>, after: seq<Rec>)
    requires i < |lists| && lists[i] == before + (out + [r]) + after && r.ino != 0 && Pairs(put) == Pairs(out)
    requires Distinct(Entries(lists))
    ensures var lists' := lists[i := before + put + after];
            && Distinct(Entries(lists')) && DirNames(lists') == DirNames(lists) - {r.name}
    ensures r.name in DirNames(lists) && DirNames(lists)[r.name] == r.ino
  {
    hide Flat, Names, Distinct, Pairs;
    var p := Pair(r.name, r.ino);
    assert lists[i := lists[i]] == lists;
    EntriesAround(lists, i, lists[i]);
    EntriesAround(lists, i, before + put + after);
    ThreePairs(before, out + [r], after);
    ThreePairs(before, put, after);
    PairsConcat(out, [r]);
    PairsOne(r);
    var x, y := Pairs(Flat(lists[..i])), Pairs(Flat(lists[i + 1..]));
    Regroup(x, Pairs(before), Pairs(out), [p], Pairs(after), y);
    Removed(x + (Pairs(before) + Pairs(out)), Pairs(after) + y, p);
  }

  lemma Regroup(x: seq<Pair>, u: seq<Pair>, v: seq<Pair>, p: seq<Pair>, w: seq<Pair>, y: seq<Pair>)
    ensures x + (u + (v + p) + w) + y == (x + (u + v)) + p + (w + y)
    ensures x + (u + v + w) + y == (x + (u + v)) + (w + y)
  {
  }

  /** A new block with one entry. */
  lemma AppendName(lists: seq<seq<Rec>>, r: Rec)
    requires Distinct(Entries(lists)) && r.ino != 0 && r.name !in DirNames(lists)
    ensures Distinct(Entries(lists + [[r]])) && DirNames(lists + [[r]]) == DirNames(lists)[r.name := r.ino]
  {
    hide Flat, Names, Distinct, Pairs;
    FlatConcat(lists, [[r]]);
    FlatOne([r]);
    PairsConcat(Flat(lists), [r]);
    PairsOne(r);
    Last(Entries(lists), Pair(r.name, r.ino));
  }

  lemma {:induction false} NowhereNamed(lists: seq<seq<Rec>>, name: Name)
    requires forall i, k :: 0 <= i < |lists| && 0 <= k < |lists[i]| ==> !Matches(lists[i][k], name)
    ensures name !in DirNames(lists)
  {
    hide Matches;
    forall k | 0 <= k < |Flat(lists)| ensures !Matches(Flat(lists)[k], name) {
      FlatFrom(lists, k);
    }
    Unnamed(Flat(lists), name);
  }

  lemma {:induction false} FlatFrom(lists: seq<seq<Rec>>, k: nat)
    requires k < |Flat(lists)|
    ensures exists i, j :: 0 <= i < |lists| && 0 <= j < |lists[i]| && lists[i][j] == Flat(lists)[k]
  {
    var n := |lists| - 1;
    var a := lists[..n];
    if k < |Flat(a)| {
      FlatFrom(a, k);
      var i, j :| 0 <= i < |a| && 0 <= j < |a[i]| && a[i][j] == Flat(a)[k];
      assert lists[i][j] == Flat(lists)[k];
    } else {
      assert lists[n][k - |Flat(a)|] == Flat(lists)[k];
    }
  }

  /** File `f` is a directory whose blocks hold the records `lists`. */
  ghost predicate IsDirectory(d: Disk, ins: Inodes, f: nat, bs: nat, lists: seq<seq<Rec>>) {
    && f in ins && SizeOf(ins[f]) == |lists| * bs && Distinct(Entries(lists))
    && (forall i: nat :: i < |lists| ==> HoldsList(d, ins, f, i, bs, lists[i]))
    && forall i: nat :: |lists| <= i ==> At(d, ins, PlaceOf(f, i, Ptrs(bs))) == 0
  }

  ghost predicate HoldsList(d: Disk, ins: Inodes, f: nat, i: nat, bs: nat, rs: seq<Rec>) {
    At(d, ins, PlaceOf(f, i, Ptrs(bs))) != 0 && Reads(Content(d, ins, f, i, bs), 0, bs, rs)
  }

  /** i_mode has the directory bit. */
  predicate IsDirMode(inode: Inode) { TestBit(ModeOf(inode), 14) }

  /** The inode a lookup answers; 0 for none. */
  function Found(m: map<Name, nat>, name: Name): nat { if name in m then m[name] else 0 }

  /** What a directory still is after block `i` of it was rewritten. */
  lemma BlockRewritten(d: Disk, ins: Inodes, d': Disk, f: nat, bs: nat, lists: seq<seq<Rec>>, i: nat, rs: seq<Rec>)
    requires IsDirectory(d, ins, f, bs, lists) && i < |lists| && OnlyBlock(d, ins, d', ins, bs, f, i)
    requires HoldsList(d', ins, f, i, bs, rs) && Distinct(Entries(lists[i := rs]))
    ensures IsDirectory(d', ins, f, bs, lists[i := rs])
  {
    hide At, PlaceOf, Content, Reads, Entries, Distinct, SizeOf;
  }

  lemma DirBlock(d: Disk, ins: Inodes, f: nat, bs: nat, lists: seq<seq<Rec>>, i: nat)
    requires IsDirectory(d, ins, f, bs, lists) && i < |lists|
    ensures At(d, ins, PlaceOf(f, i, Ptrs(bs))) != 0 && Reads(Content(d, ins, f, i, bs), 0, bs, lists[i])
  {
    hide At, PlaceOf, Content, Reads, Entries, Distinct, SizeOf;
    assert HoldsList(d, ins, f, i, bs, lists[i]);
  }

  lemma OthersAfter(d: Disk, ins: Inodes, d': Disk, ins': Inodes, bs: nat, f: nat, i: nat)
    requires OnlyBlock(d, ins, d', ins', bs, f, i)
    ensures OthersSame(d, ins, d', ins', bs, f)
  {
    hide At, PlaceOf, Content;
  }

  function ListAt(lists: seq<seq<Rec>>, i: nat): seq<Rec> { if i < |lists| then lists[i] else [] }

  predicate WholeBlock(b: Block, rs: seq<Rec>) { Reads(b, 0, |b|, rs) }

  /** The buffer holds block `i` of the file, which is disk block `b`. */
  ghost predicate Loaded(d: Disk, ins: Inodes, f: nat, i: nat, bs: nat, b: nat, buf: Block) {
    b == At(d, ins, PlaceOf(f, i, Ptrs(bs))) != 0 && buf == Content(d, ins, f, i, bs) && |buf| == bs
  }

  /** Reads block `i` of a directory into the scratch buffer. */
  method LoadBlock(fs: Volume, inode: Inode, f: nat, i: nat, ghost lists: seq<seq<Rec>>) returns (b: nat)
    requires fs.Valid() && Holds(fs.ins, f, inode) && i < |lists|
      && IsDirectory(fs.disk, fs.ins, f, fs.layout.bs, lists)
    modifies fs`blockBuf, fs`indBuf
    ensures fs.Valid() && Loaded(fs.disk, fs.ins, f, i, fs.layout.bs, b, fs.blockBuf)
      && WholeBlock(fs.blockBuf, ListAt(lists, i))
  {
    hide Good, At, PlaceOf, Content, Reads, IsDirectory;
    DirBlock(fs.disk, fs.ins, f, fs.layout.bs, lists, i);
    b := fs.GetBlock(inode, i, f);
    BlockReady(fs.layout, fs.kind, fs.disk, fs.owned, fs.groupFree, fs.sbFree, fs.ins, b, f, i);
    fs.blockBuf := fs.disk[b];
  }

  lemma BlockIndex(i: nat, n: nat, bs: nat)
    requires 0 < bs
    ensures i * bs / bs == i && i * bs % bs == 0 && (i * bs < n * bs <==> i < n) && (i + 1) * bs == i * bs + bs
  {
    DivisionIs(i * bs, bs, i, 0);
    Multiples(i, n, bs);
    Multiples(n, i, bs);
  }

  /** What a scan looks for: the live record with a name, or a record with room for a name of `n` bytes. */
  datatype Goal = Named(name: Name) | Space(n: nat)

  predicate Meets(r: Rec, g: Goal) {
    match g
    case Named(name) => Matches(r, name)
    case Space(n) => Roomy(r, n)
  }

  predicate Lacks(rs: seq<Rec>, g: Goal) { forall k :: 0 <= k < |rs| ==> !Meets(rs[k], g) }

  predicate LackBefore(lists: seq<seq<Rec>>, i: nat, g: Goal) {
    i <= |lists| && forall j :: 0 <= j < i ==> Lacks(lists[j], g)
  }

  /** The first record that meets the goal; the length of the list if none does. */
  function FirstRec(rs: seq<Rec>, g: Goal): (k: nat)
    ensures k <= |rs| && (k < |rs| ==> Meets(rs[k], g)) && forall i :: 0 <= i < k ==> !Meets(rs[i], g)
  {
    if rs == [] || Meets(rs[0], g) then 0 else 1 + FirstRec(rs[1..], g)
  }

  /** The first list with such a record. */
  function FirstList(lists: seq<seq<Rec>>, g: Goal): (i: nat)
    ensures LackBefore(lists, i, g) && (i < |lists| ==> FirstRec(lists[i], g) < |lists[i]|)
  {
    if lists == [] || FirstRec(lists[0], g) < |lists[0]| then 0 else 1 + FirstList(lists[1..], g)
  }

  lemma FirstIs(lists: seq<seq<Rec>>, g: Goal, i: nat, k: nat)
    requires LackBefore(lists, i, g) && i < |lists| && k < |lists[i]| && Meets(lists[i][k], g)
    requires forall j :: 0 <= j < k ==> !Meets(lists[i][j], g)
    ensures FirstList(lists, g) == i && FirstRec(lists[i], g) == k
  {
    hide Meets, FirstRec, FirstList;
    assert !Lacks(lists[i], g);
  }

  lemma FirstNone(lists: seq<seq<Rec>>, g: Goal)
    requires LackBefore(lists, |lists|, g)
    ensures FirstList(lists, g) == |lists|
  {
    hide Meets, FirstRec, FirstList;
  }

  /** The scan of ext2_lookup and ext2_remove_dir_entry over the blocks of a directory. */
  method FindEntry(fs: Volume, inode: Inode, f: nat, name: Name, ghost lists: seq<seq<Rec>>)
    returns (found: bool, i: nat, b: nat, o: nat, prev: nat, hasPrev: bool, ghost k: nat)
    requires fs.Valid() && Holds(fs.ins, f, inode) && IsDirectory(fs.disk, fs.ins, f, fs.layout.bs, lists)
    modifies fs`blockBuf, fs`indBuf
    ensures fs.Valid() && i == FirstList(lists, Named(name)) && found == (i < |lists|)
    ensures found ==> Loaded(fs.disk, fs.ins, f, i, fs.layout.bs, b, fs.blockBuf)
    ensures found ==> k == FirstRec(ListAt(lists, i), Named(name))
    ensures found ==> Located(fs.blockBuf, ListAt(lists, i), name, o, prev, hasPrev, k)
  {
    hide Good, At, PlaceOf, Content, Reads, IsDirectory, SplitsAt, IsAt, Matches, SizeOf, Loaded, Lacks, FirstRec,
         FirstList;
    var size, bs := SizeOf(inode), fs.layout.bs;
    assert size == |lists| * bs by { DirSize(fs.disk, fs.ins, f, bs, lists); }
    var offset := 0;
    found, i, b, o, prev, hasPrev, k := false, 0, 0, 0, 0, false, 0;
    BlockIndex(i, |lists|, bs);
    while offset < size
      invariant fs.Valid() && i <= |lists| && offset == i * bs && (offset < size <==> i < |lists|)
      invariant LackBefore(lists, i, Named(name))
      decreases size - offset
    {
      BlockIndex(i, |lists|, bs);
      b := LoadBlock(fs, inode, f, offset / bs, lists);
      o, prev, hasPrev, k := FindName(fs.blockBuf, name, lists[i]);
      if o < |fs.blockBuf| {
        FirstIs(lists, Named(name), i, k);
        found := true;
        return;
      }
      assert Lacks(lists[i], Named(name)) by { LacksHere(lists[i], Named(name)); }
      offset := offset + bs;
      i := i + 1;
      BlockIndex(i, |lists|, bs);
    }
    FirstNone(lists, Named(name));
  }

  lemma LacksHere(rs: seq<Rec>, g: Goal)
    requires forall k :: 0 <= k < |rs| ==> !Meets(rs[k], g)
    ensures Lacks(rs, g)
  {
  }

  lemma DirSize(d: Disk, ins: Inodes, f: nat, bs: nat, lists: seq<seq<Rec>>)
    requires IsDirectory(d, ins, f, bs, lists)
    ensures f in ins && SizeOf(ins[f]) == |lists| * bs && Distinct(Entries(lists))
  {
    hide SizeOf, Entries, Distinct, HoldsList;
  }

  /** The record at `o`, the `k`th, is the entry with this name; `prev` is the record before it. */
  ghost predicate Located(b: seq<byte>, rs: seq<Rec>, name: Name, o: nat, prev: nat, hasPrev: bool, k: nat) {
    && k < |rs| && o < |b| && SplitsAt(b, rs, k, o) && IsAt(b, o, rs[k]) && Matches(rs[k], name)
    && hasPrev == (k > 0) && (hasPrev ==> SplitsAt(b, rs, k - 1, prev) && prev < o)
  }

  /** A record that is found is the entry of the map. */
  lemma FoundIs(lists: seq<seq<Rec>>, i: nat, k: nat, name: Name)
    requires i < |lists| && k < |lists[i]| && Matches(lists[i][k], name) && Distinct(Entries(lists))
    ensures name in DirNames(lists) && DirNames(lists)[name] == lists[i][k].ino
  {
    hide DirNames, Entries, Distinct;
    var rs := lists[i];
    assert rs == rs[..k] + ([] + [rs[k]]) + rs[k + 1..];
    DropName(lists, i, rs[..k], [], rs[k], [], rs[k + 1..]);
  }

  lemma AbsentIs(lists: seq<seq<Rec>>, name: Name)
    requires FirstList(lists, Named(name)) == |lists|
    ensures name !in DirNames(lists)
  {
    hide DirNames, Matches;
    forall i, k | 0 <= i < |lists| && 0 <= k < |lists[i]| ensures !Matches(lists[i][k], name) {
      assert Lacks(lists[i], Named(name)) && (Meets(lists[i][k], Named(name)) <==> Matches(lists[i][k], name));
    }
    NowhereNamed(lists, name);
  }

  /** ext2_lookup. */
  method Lookup(fs: Volume, f: nat, name: Name, ghost lists: seq<seq<Rec>>) returns (ino: nat)
    requires fs.Valid() && fs.AllStored() && IsDirectory(fs.disk, fs.ins, f, fs.layout.bs, lists)
    modifies fs`blockBuf, fs`indBuf
    ensures fs.Valid() && Answers(fs.ins, f, lists, name, ino)
  {
    hide Good, At, PlaceOf, Content, StoredBut, IsDirectory, DirNames, SplitsAt, Reads, Matches, FirstList, FirstRec;
    DirSize(fs.disk, fs.ins, f, fs.layout.bs, lists);
    var inode := fs.ReadInode(f);
    if !IsDirMode(inode) {
      return 0;
    }
    var found, i, b, o, prev, hasPrev, k := FindEntry(fs, inode, f, name, lists);
    if !found {
      AbsentIs(lists, name);
      return 0;
    }
    FoundIs(lists, i, k, name);
    ino := Field(fs.blockBuf, o, 4);
  }

  /** A directory answers with its entry; anything else, with nothing. */
  ghost predicate Answers(ins: Inodes, f: nat, lists: seq<seq<Rec>>, name: Name, ino: nat) {
    f in ins && ino == if IsDirMode(ins[f]) then Found(DirNames(lists), name) else 0
  }

  // ----- removing -----

  /** The records of a block without the `k`th: merged into the one before it, or dead if it is the first. */
  function Unlinked(rs: seq<Rec>, k: nat): seq<Rec>
    requires k < |rs|
  {
    if k == 0 then [rs[0].(ino := 0)] + rs[1..]
    else rs[..k - 1] + [rs[k - 1].(len := rs[k - 1].len + rs[k].len)] + rs[k + 1..]
  }

  /** The bytes of a block after an entry at `o` was removed. */
  function RemovedBytes(b: seq<byte>, o: nat, prev: nat, hasPrev: bool): seq<byte> {
    if hasPrev && prev + 6 <= |b| then PutField(b, prev + 4, 2, LenAt(b, prev) + LenAt(b, o))
    else if !hasPrev && o + 4 <= |b| then PutField(b, o, 4, 0)
    else b
  }

  lemma SplitParts(b: seq<byte>, rs: seq<Rec>, k: nat, o: nat)
    requires SplitsAt(b, rs, k, o) && o < |b|
    ensures k < |rs| && IsAt(b, o, rs[k]) && RecOk(rs[k]) && 8 <= rs[k].len && o + rs[k].len <= |b|
    ensures Reads(b, 0, o, rs[..k]) && Reads(b, o + rs[k].len, |b|, rs[k + 1..])
  {
    hide IsAt, Reads;
    SplitsNext(b, rs, k, o);
  }

  lemma RemoveFromBlock(b: seq<byte>, rs: seq<Rec>, name: Name, o: nat, prev: nat, hasPrev: bool, k: nat)
    requires Located(b, rs, name, o, prev, hasPrev, k) && |b| < 0x1_0000 && WholeBlock(b, rs)
    ensures WholeBlock(RemovedBytes(b, o, prev, hasPrev), Unlinked(rs, k)) && |RemovedBytes(b, o, prev, hasPrev)| == |b|
  {
    hide IsAt, Reads, SplitsAt, Matches, LenAt, PutField;
    SplitParts(b, rs, k, o);
    LenIs(b, o, rs[k]);
    if hasPrev {
      SplitParts(b, rs, k - 1, prev);
      LenIs(b, prev, rs[k - 1]);
      assert o == prev + rs[k - 1].len by { SplitsSame(b, rs, k, o, prev); }
      MergeInBlock(b, prev, rs[..k - 1], rs[k - 1], rs[k], rs[k + 1..],
                   PutField(b, prev + 4, 2, rs[k - 1].len + rs[k].len));
    } else {
      assert o == 0 by { SplitsAtStart(b, rs, o); }
      KillFirst(b, rs[0], rs[1..], PutField(b, 0, 4, 0));
    }
  }

  lemma SplitsAtStart(b: seq<byte>, rs: seq<Rec>, o: nat)
    requires SplitsAt(b, rs, 0, o)
    ensures o == 0
  {
    assert rs[..0] == [];
  }

  lemma SplitsSame(b: seq<byte>, rs: seq<Rec>, k: nat, o: nat, prev: nat)
    requires 0 < k && SplitsAt(b, rs, k, o) && SplitsAt(b, rs, k - 1, prev) && prev < |b|
    ensures k - 1 < |rs| && o == prev + rs[k - 1].len
  {
    hide IsAt;
    SplitsNext(b, rs, k - 1, prev);
    EndsSame(b, 0, o, prev + rs[k - 1].len, rs[..k]);
  }

  lemma {:induction false} EndsSame(b: seq<byte>, o: nat, e: nat, e': nat, rs: seq<Rec>)
    requires Reads(b, o, e, rs) && Reads(b, o, e', rs)
    ensures e == e'
    decreases |rs|
  {
    hide IsAt;
    if rs != [] {
      EndsSame(b, o + rs[0].len, e, e', rs[1..]);
    }
  }

  lemma UnlinkedNames(lists: seq<seq<Rec>>, i: nat, k: nat)
    requires i < |lists| && k < |lists[i]| && lists[i][k].ino != 0 && Distinct(Entries(lists))
    ensures var lists' := lists[i := Unlinked(lists[i], k)];
            Distinct(Entries(lists')) && DirNames(lists') == DirNames(lists) - {lists[i][k].name}
  {
    hide DirNames, Entries, Distinct;
    var rs := lists[i];
    var r := rs[k];
    if k == 0 {
      var put := [r.(ino := 0)];
      assert Pairs(put) == Pairs([]) by { PairsOne(r.(ino := 0)); }
      assert rs == [] + ([] + [r]) + rs[1..];
      DropName(lists, i, [], [], r, put, rs[1..]);
      assert [] + put + rs[1..] == Unlinked(rs, 0);
    } else {
      var q := rs[k - 1];
      var out, put := [q], [q.(len := q.len + r.len)];
      assert Pairs(put) == Pairs(out) by { PairsOne(q); PairsOne(q.(len := q.len + r.len)); }
      assert rs == rs[..k - 1] + (out + [r]) + rs[k + 1..];
      DropName(lists, i, rs[..k - 1], out, r, put, rs[k + 1..]);
    }
  }

  /** The records of a directory without the first that has this name. */
  function Without(lists: seq<seq<Rec>>, name: Name): seq<seq<Rec>> {
    var i := FirstList(lists, Named(name));
    if i < |lists| then lists[i := Unlinked(lists[i], FirstRec(lists[i], Named(name)))] else lists
  }

  /** That takes the name, and nothing else, out of the map. */
  lemma WithoutNames(lists: seq<seq<Rec>>, name: Name)
    requires Distinct(Entries(lists))
    ensures Distinct(Entries(Without(lists, name))) && DirNames(Without(lists, name)) == DirNames(lists) - {name}
    ensures name in DirNames(lists) <==> FirstList(lists, Named(name)) < |lists|
  {
    hide DirNames, Entries, Distinct, Unlinked, FirstList, FirstRec;
    var i := FirstList(lists, Named(name));
    if i < |lists| {
      var k := FirstRec(lists[i], Named(name));
      assert Meets(lists[i][k], Named(name));
      FoundIs(lists, i, k, name);
      UnlinkedNames(lists, i, k);
    } else {
      AbsentIs(lists, name);
    }
  }

  /** ext2_remove_dir_entry. */
  method RemoveEntry(fs: Volume, f: nat, name: Name, ghost lists: seq<seq<Rec>>) returns (r: int)
    requires fs.Valid() && fs.AllStored() && IsDirectory(fs.disk, fs.ins, f, fs.layout.bs, lists)
    modifies fs`disk, fs`blockBuf, fs`indBuf
    ensures fs.Valid() && fs.AllStored() && IsDirectory(fs.disk, fs.ins, f, fs.layout.bs, Without(lists, name))
    ensures OthersSame(old(fs.disk), fs.ins, fs.disk, fs.ins, fs.layout.bs, f)
    ensures r == if name in DirNames(lists) then 0 else -1
    ensures old(fs.Synced()) ==> fs.Synced()
  {
    hide Good, Flushed, At, PlaceOf, Content, StoredBut, IsDirectory, DirNames, Located, Reads, Matches, OnlyBlock,
         OthersSame, RemovedBytes, Unlinked, Entries, Distinct, FirstList, FirstRec;
    DirSize(fs.disk, fs.ins, f, fs.layout.bs, lists);
    SameOthers(fs.disk, fs.ins, fs.layout.bs, f);
    WithoutNames(lists, name);
    var inode := fs.ReadInode(f);
    var found, i, b, o, prev, hasPrev, k := FindEntry(fs, inode, f, name, lists);
    if !found {
      return -1;
    }
    ghost var d := fs.disk;
    LocatedIs(fs.blockBuf, lists[i], name, o, prev, hasPrev, k);
    DirBlock(d, fs.ins, f, fs.layout.bs, lists, i);
    RemoveFromBlock(fs.blockBuf, lists[i], name, o, prev, hasPrev, k);
    fs.blockBuf := RemovedBytes(fs.blockBuf, o, prev, hasPrev);
    SaveBlock(fs, f, i, b, lists, Unlinked(lists[i], k));
    r := 0;
  }

  lemma SameOthers(d: Disk, ins: Inodes, bs: nat, f: nat)
    ensures OthersSame(d, ins, d, ins, bs, f)
  {
  }

  lemma LocatedIs(b: seq<byte>, rs: seq<Rec>, name: Name, o: nat, prev: nat, hasPrev: bool, k: nat)
    requires Located(b, rs, name, o, prev, hasPrev, k)
    ensures k < |rs| && Matches(rs[k], name) && rs[k].ino != 0 && rs[k].name == name
  {
  }

  /** The block of a file is not where the counts are. */
  lemma CountsKept(l: Layout, kind: map<nat, Use>, d: Disk, owned: set<nat>, free: seq<nat>, sbFree: nat, ins: Inodes,
                   f: nat, i: nat, c: Block, head: seq<byte>, tail: seq<byte>, tails: seq<seq<byte>>)
    requires Good(l, kind, d, owned, free, sbFree, ins) && Flushed(l, d, free, sbFree, head, tail, tails)
    requires At(d, ins, PlaceOf(f, i, Ptrs(l.bs))) != 0
    ensures Flushed(l, d[At(d, ins, PlaceOf(f, i, Ptrs(l.bs))) := c], free, sbFree, head, tail, tails)
  {
    hide Padded, Counted, At, PlaceOf, Trees, InUse, DescriptorTable, SuperBytes;
    Ext2Steps.Named(d, ins, l.bs, owned, f, i);
  }

  /** Writes the scratch buffer back to block `i` of the directory. */
  method SaveBlock(fs: Volume, f: nat, ghost i: nat, b: nat, ghost lists: seq<seq<Rec>>, ghost rs: seq<Rec>)
    requires fs.Valid() && fs.AllStored() && IsDirectory(fs.disk, fs.ins, f, fs.layout.bs, lists) && i < |lists|
    requires b == fs.Pointer(f, i) != 0 && WholeBlock(fs.blockBuf, rs) && Distinct(Entries(lists[i := rs]))
    modifies fs`disk
    ensures fs.Valid() && fs.AllStored() && IsDirectory(fs.disk, fs.ins, f, fs.layout.bs, Updated(lists, i, rs))
    ensures old(fs.Synced()) ==> fs.Synced()
    ensures OthersSame(old(fs.disk), fs.ins, fs.disk, fs.ins, fs.layout.bs, f)
  {
    hide Good, At, PlaceOf, Content, StoredBut, IsDirectory, Reads, OnlyBlock, OthersSame, Entries, Distinct, Loose,
         Flushed;
    DirSize(fs.disk, fs.ins, f, fs.layout.bs, lists);
    StoredWeaker(fs.layout, fs.kind, fs.disk, fs.ins, f);
    BlockReady(fs.layout, fs.kind, fs.disk, fs.owned, fs.groupFree, fs.sbFree, fs.ins, b, f, i);
    ghost var d := fs.disk;
    if fs.Synced() {
      CountsKept(fs.layout, fs.kind, d, fs.owned, fs.groupFree, fs.sbFree, fs.ins, f, i, fs.blockBuf, fs.sbHead,
                 fs.sbTail,
                 fs.groupTails);
    }
    fs.WriteData(b, f, i);
    OthersAfter(d, fs.ins, fs.disk, fs.ins, fs.layout.bs, f, i);
    BlockRewritten(d, fs.ins, fs.disk, f, fs.layout.bs, lists, i, rs);
  }

  function Updated(lists: seq<seq<Rec>>, i: nat, rs: seq<Rec>): seq<seq<Rec>> {
    if i < |lists| then lists[i := rs] else lists
  }

  // ----- adding -----

  /** Some record of the directory has room for a name of `n` bytes. */
  predicate HasSpace(lists: seq<seq<Rec>>, n: nat) { FirstList(lists, Space(n)) < |lists| }

  /** The record at `o`, the `k`th, can be split. */
  ghost predicate Splittable(b: seq<byte>, rs: seq<Rec>, n: nat, o: nat, k: nat) {
    k < |rs| && o < |b| && SplitsAt(b, rs, k, o) && IsAt(b, o, rs[k]) && RecOk(rs[k]) && Roomy(rs[k], n)
  }

  /** The scan of ext2_add_dir_entry over the blocks of a directory. */
  method FindSpace(fs: Volume, inode: Inode, f: nat, n: nat, ghost lists: seq<seq<Rec>>)
    returns (found: bool, i: nat, b: nat, o: nat, ghost k: nat)
    requires fs.Valid() && Holds(fs.ins, f, inode) && IsDirectory(fs.disk, fs.ins, f, fs.layout.bs, lists)
    modifies fs`blockBuf, fs`indBuf
    ensures fs.Valid() && i == FirstList(lists, Space(n)) && found == (i < |lists|)
    ensures found ==> Loaded(fs.disk, fs.ins, f, i, fs.layout.bs, b, fs.blockBuf)
    ensures found ==> k == FirstRec(ListAt(lists, i), Space(n))
    ensures found ==> Splittable(fs.blockBuf, ListAt(lists, i), n, o, k)
  {
    hide Good, At, PlaceOf, Content, Reads, IsDirectory, SplitsAt, IsAt, Roomy, RecOk, SizeOf, Loaded, Lacks, FirstRec,
         FirstList;
    var size, bs := SizeOf(inode), fs.layout.bs;
    assert size == |lists| * bs by { DirSize(fs.disk, fs.ins, f, bs, lists); }
    var offset := 0;
    found, i, b, o, k := false, 0, 0, 0, 0;
    BlockIndex(i, |lists|, bs);
    while offset < size
      invariant fs.Valid() && i <= |lists| && offset == i * bs && (offset < size <==> i < |lists|)
      invariant LackBefore(lists, i, Space(n))
      decreases size - offset
    {
      BlockIndex(i, |lists|, bs);
      b := LoadBlock(fs, inode, f, offset / bs, lists);
      o, k := FindRoom(fs.blockBuf, n, lists[i]);
      if o < |fs.blockBuf| {
        FirstIs(lists, Space(n), i, k);
        found := true;
        return;
      }
      assert Lacks(lists[i], Space(n)) by { LacksHere(lists[i], Space(n)); }
      offset := offset + bs;
      i := i + 1;
      BlockIndex(i, |lists|, bs);
    }
    FirstNone(lists, Space(n));
  }

  /** The bytes of a block after the record at `o` was split. */
  function SplitBytes(b: seq<byte>, o: nat, ino: nat, kind: byte, name: Name): seq<byte> {
    var keep, len := Needed(NameLenAt(b, o)), LenAt(b, o);
    if |name| < 256 && keep <= len && o + 6 <= |b| && o + keep + 8 + |name| <= |b| then
      Splice(PutField(b, o + 4, 2, keep), o + keep, Entry(ino, len - keep, kind, name))
    else b
  }

  /** The records of a block after the `k`th was split. */
  function SplitList(rs: seq<Rec>, k: nat, ino: nat, kind: byte, name: Name): seq<Rec>
    requires k < |rs| && RecOk(rs[k])
  {
    rs[..k] + Halves(rs[k], ino, kind, name) + rs[k + 1..]
  }

  lemma SplitInBlock(b: seq<byte>, rs: seq<Rec>, o: nat, k: nat, ino: nat, kind: byte, name: Name)
    requires Splittable(b, rs, |name|, o, k) && |b| < 0x1_0000 && |name| < 256 && ino < 0x1_0000_0000
    ensures k < |rs| && RecOk(rs[k]) && |SplitBytes(b, o, ino, kind, name)| == |b|
    ensures WholeBlock(SplitBytes(b, o, ino, kind, name), SplitList(rs, k, ino, kind, name))
  {
    hide IsAt, Reads, SplitsAt, LenAt, NameLenAt, PutField, Entry;
    SplitParts(b, rs, k, o);
    LenIs(b, o, rs[k]);
    NeededHolds(|name|);
    NeededHolds(|rs[k].name|);
    var keep := Needed(|rs[k].name|);
    var m := PutField(b, o + 4, 2, keep);
    AddToBlock(b, o, rs[..k], rs[k], rs[k + 1..], ino, kind, name, keep, m,
               Splice(m, o + keep, Entry(ino, rs[k].len - keep, kind, name)));
  }

  lemma SplitNames(lists: seq<seq<Rec>>, i: nat, k: nat, ino: nat, kind: byte, name: Name)
    requires i < |lists| && k < |lists[i]| && RecOk(lists[i][k]) && ino != 0 && Distinct(Entries(lists))
      && name !in DirNames(lists)
    ensures var lists' := lists[i := SplitList(lists[i], k, ino, kind, name)];
            Distinct(Entries(lists')) && DirNames(lists') == DirNames(lists)[name := ino]
  {
    hide DirNames, Entries, Distinct, Halves;
    var rs := lists[i];
    assert rs == rs[..k] + [rs[k]] + rs[k + 1..];
    AddName(lists, i, rs[..k], rs[k], rs[k + 1..], ino, kind, name);
  }

  /** The records of a directory with a new one in the first place that has room. */
  function With(lists: seq<seq<Rec>>, ino: nat, kind: byte, name: Name): seq<seq<Rec>> {
    var i := FirstList(lists, Space(|name|));
    if i < |lists| then lists[i := SplitList(lists[i], FirstRec(lists[i], Space(|name|)), ino, kind, name)] else lists
  }

  /** That puts the name, and nothing else, into the map. */
  lemma WithNames(lists: seq<seq<Rec>>, ino: nat, kind: byte, name: Name)
    requires Distinct(Entries(lists)) && name !in DirNames(lists) && ino != 0 && HasSpace(lists, |name|)
    ensures Distinct(Entries(With(lists, ino, kind, name)))
    ensures DirNames(With(lists, ino, kind, name)) == DirNames(lists)[name := ino]
  {
    hide DirNames, Entries, Distinct, SplitList, FirstList, FirstRec;
    var i := FirstList(lists, Space(|name|));
    SplitNames(lists, i, FirstRec(lists[i], Space(|name|)), ino, kind, name);
  }

  /** A directory that got a block more. */
  lemma BlockAdded(d: Disk, ins: Inodes, d': Disk, ins': Inodes, f: nat, bs: nat, lists: seq<seq<Rec>>, rs: seq<Rec>)
    requires IsDirectory(d, ins, f, bs, lists) && OnlyBlock(d, ins, d', ins', bs, f, |lists|) && f in ins'
    requires SizeOf(ins'[f]) == (|lists| + 1) * bs && HoldsList(d', ins', f, |lists|, bs, rs)
      && Distinct(Entries(lists + [rs]))
    ensures IsDirectory(d', ins', f, bs, lists + [rs])
  {
    hide At, PlaceOf, Content, Reads, Entries, Distinct, SizeOf;
  }

  /** The blocks of a directory are as they were, but its size takes in one more, which is missing. */
  ghost predicate Stretched(d: Disk, ins: Inodes, f: nat, bs: nat, lists: seq<seq<Rec>>) {
    && f in ins && SizeOf(ins[f]) == (|lists| + 1) * bs && Distinct(Entries(lists))
    && (forall i: nat :: i < |lists| ==> HoldsList(d, ins, f, i, bs, lists[i]))
    && forall i: nat :: |lists| <= i ==> At(d, ins, PlaceOf(f, i, Ptrs(bs))) == 0
  }

  lemma BlockLost(d: Disk, ins: Inodes, d': Disk, ins': Inodes, f: nat, bs: nat, lists: seq<seq<Rec>>)
    requires IsDirectory(d, ins, f, bs, lists) && OnlyBlock(d, ins, d', ins', bs, f, |lists|)
    requires At(d', ins', PlaceOf(f, |lists|, Ptrs(bs))) == 0 && f in ins' && SizeOf(ins'[f]) == (|lists| + 1) * bs
    ensures Stretched(d', ins', f, bs, lists)
  {
    hide At, PlaceOf, Content, Reads, Entries, Distinct, SizeOf;
  }

  lemma NothingBeyond(d: Disk, ins: Inodes, f: nat, bs: nat, lists: seq<seq<Rec>>)
    requires IsDirectory(d, ins, f, bs, lists)
    ensures At(d, ins, PlaceOf(f, |lists|, Ptrs(bs))) == 0
  {
    hide At, PlaceOf, HoldsList, Entries, Distinct, SizeOf;
  }

  /** A directory as a caller of ext2_add_dir_entry finds it: its records, whether it has a table, the free blocks. */
  datatype Dir = Dir(lists: seq<seq<Rec>>, table: bool, sb: nat)

  ghost function DirOf(ins: Inodes, f: nat, lists: seq<seq<Rec>>, sb: nat): Dir {
    Dir(lists, f in ins && Indirect(ins[f]) != 0, sb)
  }

  /** The directory can have another block, and takes so many for it. */
  predicate CanGrow(s: Dir, bs: nat) { |s.lists| < 12 + Ptrs(bs) && Cost(s) <= s.sb }

  function Cost(s: Dir): nat { if 12 <= |s.lists| && !s.table then 2 else 1 }

  predicate CanTake(s: Dir, n: nat, bs: nat) { HasSpace(s.lists, n) || CanGrow(s, bs) }

  /** The directory after a block with one entry was added. */
  function Grown(s: Dir, ino: nat, kind: byte, name: Name, bs: nat): Dir {
    if CanGrow(s, bs) then Dir(s.lists + [[Rec(ino, bs, kind, name)]], s.table || 12 <= |s.lists|, s.sb - Cost(s))
    else if s.sb == 0 then s
    else s.(sb := s.sb - 1)
  }

  /** The directory after an entry was added: in the first place with room, or else in a new block. */
  function Added(s: Dir, ino: nat, kind: byte, name: Name, bs: nat): Dir {
    if HasSpace(s.lists, |name|) then s.(lists := With(s.lists, ino, kind, name)) else Grown(s, ino, kind, name, bs)
  }

  /** What is on disk: the directory; or, with an entry lost, its blocks under too large a size. */
  ghost predicate Remains(d: Disk, ins: Inodes, f: nat, bs: nat, lists: seq<seq<Rec>>, lost: bool) {
    if lost then Stretched(d, ins, f, bs, lists) else IsDirectory(d, ins, f, bs, lists)
  }

  /** The directory has become `s`. */
  ghost predicate Became(d: Disk, ins: Inodes, sb: nat, f: nat, bs: nat, s: Dir, lost: bool) {
    DirOf(ins, f, s.lists, sb) == s && Remains(d, ins, f, bs, s.lists, lost)
  }

  lemma DirIs(ins: Inodes, f: nat, lists: seq<seq<Rec>>, sb: nat)
    ensures DirOf(ins, f, lists, sb).lists == lists && DirOf(ins, f, lists, sb).sb == sb
  {
  }

  lemma GrowthIs(inode: Inode, ins: Inodes, f: nat, lists: seq<seq<Rec>>, sb: nat, bs: nat)
    requires Holds(ins, f, inode)
    ensures CanGrow(DirOf(ins, f, lists, sb), bs) <==> Reachable(inode, |lists|, sb, bs)
    ensures Cost(DirOf(ins, f, lists, sb)) == 1 + NewTable(inode, |lists|)
  {
  }

  lemma GrowthNone(d: Disk, ins: Inodes, f: nat, bs: nat, lists: seq<seq<Rec>>, ino: nat, kind: byte, name: Name)
    requires IsDirectory(d, ins, f, bs, lists)
    ensures Became(d, ins, 0, f, bs, Grown(DirOf(ins, f, lists, 0), ino, kind, name, bs), false)
  {
    hide IsDirectory, Indirect;
  }

  lemma GrowthDone(ins: Inodes, sb: nat, d': Disk, ins': Inodes, sb': nat, f: nat, bs: nat, lists: seq<seq<Rec>>,
                   ino: nat, kind: byte, name: Name)
    requires f in ins && f in ins' && 0 < sb
    requires var inode := ins[f];
             if Reachable(inode, |lists|, sb, bs) then
               && IsDirectory(d', ins', f, bs, lists + [[Rec(ino, bs, kind, name)]])
               && sb' == sb - 1 - NewTable(inode, |lists|)
               && (Indirect(ins'[f]) == 0 <==> |lists| < 12 && Indirect(inode) == 0)
             else
               Stretched(d', ins', f, bs, lists) && sb' == sb - 1 && Indirect(ins'[f]) == Indirect(inode)
    ensures Became(d', ins', sb', f, bs, Grown(DirOf(ins, f, lists, sb), ino, kind, name, bs),
                   !Reachable(ins[f], |lists|, sb, bs))
  {
    hide IsDirectory, Indirect, Stretched;
  }

  /** The tail of ext2_add_dir_entry: a new block for the entry, lost if it cannot be attached. */
  method AppendBlock(fs: Volume, f: nat, inode: Inode, ino: nat, name: Name, kind: byte, ghost lists: seq<seq<Rec>>)
    returns (r: int, lost: bool)
    requires fs.Valid() && fs.AllStored() && fs.Mounted() && Holds(fs.ins, f, inode)
      && IsDirectory(fs.disk, fs.ins, f, fs.layout.bs, lists)
    requires |name| < 256 && ino < 0x1_0000_0000 && (|lists| + 1) * fs.layout.bs < 0x1_0000_0000
    requires Distinct(Entries(lists + [[Rec(ino, fs.layout.bs, kind, name)]]))
    modifies fs`disk, fs`groupFree, fs`sbFree, fs`blockBuf, fs`indBuf, fs`owned, fs`ins
    ensures fs.Valid() && fs.AllStored() && OnlyInode(old(fs.ins), fs.ins, f)
    ensures OthersSame(old(fs.disk), old(fs.ins), fs.disk, fs.ins, fs.layout.bs, f)
    ensures Became(fs.disk, fs.ins, fs.sbFree, f, fs.layout.bs,
                   Grown(DirOf(old(fs.ins), f, lists, old(fs.sbFree)), ino, kind, name, fs.layout.bs), lost)
    ensures r == (if old(fs.sbFree) == 0 then -1 else 0) && (r == 0 || old(fs.Synced()) ==> fs.Synced())
    ensures lost == (old(fs.sbFree) > 0 && !CanGrow(DirOf(old(fs.ins), f, lists, old(fs.sbFree)), fs.layout.bs))
  {
    hide Good, At, PlaceOf, Content, StoredBut, IsDirectory, Reads, OnlyBlock, OthersSame, Entries, Distinct, Loose,
         SizeOf, ModeOf, Unseen, Entry, Stretched, InUse, Took, Indirect, NewTable, Reachable, CanGrow, Cost, TestBit,
         OnlyInode, Became, DirOf, Grown, Flushed;
    var bs := fs.layout.bs;
    ghost var d0, ins0, sb0 := fs.disk, fs.ins, fs.sbFree;
    DirSize(d0, ins0, f, bs, lists);
    NothingBeyond(d0, ins0, f, bs, lists);
    SameOthers(d0, ins0, bs, f);
    StoredWeaker(fs.layout, fs.kind, d0, ins0, f);
    BlockIndex(|lists|, |lists|, bs);
    GrowthIs(inode, fs.ins, f, lists, fs.sbFree, bs);
    GrowthNeeds(inode, |lists|, fs.sbFree, bs);
    var b := fs.AllocBlock(0);
    if b == 0 {
      OnlyThat(ins0, ins0, f, inode);
      GrowthNone(d0, ins0, f, bs, lists, ino, kind, name);
      return -1, false;
    }
    assert fs.Stored(f) by { StoredWeaker(fs.layout, fs.kind, fs.disk, fs.ins, f); }
    UnseenElsewhere(d0, ins0, fs.disk, fs.ins, bs, f, |lists|);
    ghost var d1 := fs.disk;
    var idx := SizeOf(inode) / bs;
    var inode', ok := fs.SetBlock(inode, idx, b, f);
    OnlyTrans(d0, ins0, d1, ins0, fs.disk, fs.ins, bs, f, idx);
    ghost var d2, ins2 := fs.disk, fs.ins;
    inode' := fs.AddSectors(inode', f);
    assert fs.ins == ins0[f := inode'];
    UnseenElsewhere(d2, ins2, fs.disk, fs.ins, bs, f, idx);
    OnlyTrans(d0, ins0, d2, ins2, fs.disk, fs.ins, bs, f, idx);
    ghost var d3, ins3 := fs.disk, fs.ins;
    fs.blockBuf := Splice(Zeros(bs), 0, Entry(ino, bs, kind, name));
    FreshBlock(bs, ino, kind, name, fs.blockBuf);
    ghost var buf := fs.blockBuf;
    BlockReady(fs.layout, fs.kind, fs.disk, fs.owned, fs.groupFree, fs.sbFree, fs.ins, b, f, idx);
    fs.WriteData(b, f, idx);
    OnlyTrans(d0, ins0, d3, ins3, fs.disk, fs.ins, bs, f, idx);
    ghost var d4, ins4 := fs.disk, fs.ins;
    inode' := Finish(fs, f, inode', SizeOf(inode) + bs);
    assert fs.ins == ins0[f := inode'];
    OnlyThat(ins0, fs.ins, f, inode');
    UnseenElsewhere(d4, ins4, fs.disk, fs.ins, bs, f, idx);
    OnlyTrans(d0, ins0, d4, ins4, fs.disk, fs.ins, bs, f, idx);
    OthersAfter(d0, ins0, fs.disk, fs.ins, bs, f, idx);
    lost := !ok;
    if ok {
      BlockAdded(d0, ins0, fs.disk, fs.ins, f, bs, lists, [Rec(ino, bs, kind, name)]);
    } else {
      BlockLost(d0, ins0, fs.disk, fs.ins, f, bs, lists);
    }
    GrowthDone(ins0, sb0, fs.disk, fs.ins, fs.sbFree, f, bs, lists, ino, kind, name);
    r := 0;
  }

  lemma GrowthNeeds(inode: Inode, idx: nat, sb: nat, bs: nat)
    ensures Reachable(inode, idx, sb, bs) <==>
      0 < sb && idx < 12 + Ptrs(bs) && (idx < 12 || Indirect(inode) != 0 || sb - 1 != 0)
  {
  }

  /** Only the inode of `f` has changed, and not its mode. */
  ghost predicate OnlyInode(ins: Inodes, ins': Inodes, f: nat) {
    f in ins && f in ins' && ins' == ins[f := ins'[f]] && ModeOf(ins'[f]) == ModeOf(ins[f])
  }

  lemma OnlyThat(ins: Inodes, ins': Inodes, f: nat, inode: Inode)
    requires f in ins && ins' == ins[f := inode] && ModeOf(inode) == ModeOf(ins[f])
    ensures OnlyInode(ins, ins', f)
  {
  }

  /** Splits the record of the scratch buffer that was found to have room. */
  method PutInSpace(fs: Volume, f: nat, ino: nat, name: Name, kind: byte, ghost i: nat, b: nat, o: nat, ghost k: nat,
                    ghost lists: seq<seq<Rec>>)
    requires fs.Valid() && fs.AllStored() && IsDirectory(fs.disk, fs.ins, f, fs.layout.bs, lists)
    requires |name| < 256 && 0 < ino < 0x1_0000_0000 && name !in DirNames(lists)
    requires i == FirstList(lists, Space(|name|)) < |lists| && k == FirstRec(lists[i], Space(|name|))
    requires Loaded(fs.disk, fs.ins, f, i, fs.layout.bs, b, fs.blockBuf)
      && Splittable(fs.blockBuf, lists[i], |name|, o, k)
    modifies fs`disk, fs`blockBuf
    ensures fs.Valid() && fs.AllStored()
    ensures Became(fs.disk, fs.ins, fs.sbFree, f, fs.layout.bs,
                   Added(DirOf(fs.ins, f, lists, fs.sbFree), ino, kind, name, fs.layout.bs), false)
    ensures OthersSame(old(fs.disk), fs.ins, fs.disk, fs.ins, fs.layout.bs, f)
    ensures old(fs.Synced()) ==> fs.Synced()
  {
    hide Good, Flushed, At, PlaceOf, Content, StoredBut, IsDirectory, Reads, OnlyBlock, OthersSame, Entries, Distinct,
         DirNames, SplitBytes, SplitList, Splittable, RecOk, FirstList, FirstRec;
    DirSize(fs.disk, fs.ins, f, fs.layout.bs, lists);
    SplitInBlock(fs.blockBuf, lists[i], o, k, ino, kind, name);
    WithNames(lists, ino, kind, name);
    fs.blockBuf := SplitBytes(fs.blockBuf, o, ino, kind, name);
    SaveBlock(fs, f, i, b, lists, SplitList(lists[i], k, ino, kind, name));
  }

  /** What adding an entry to `s` comes to: refused on a full disk, lost where only the directory is full. */
  ghost predicate AddedTo(s: Dir, ino: nat, kind: byte, name: Name, r: int, lost: bool, d: Disk, ins: Inodes, sb: nat,
                          f: nat, bs: nat)
  {
    && Became(d, ins, sb, f, bs, Added(s, ino, kind, name, bs), lost)
    && r == (if CanTake(s, |name|, bs) || s.sb > 0 then 0 else -1)
    && lost == (!CanTake(s, |name|, bs) && s.sb > 0)
  }

  lemma AddedWhere(s: Dir, ino: nat, kind: byte, name: Name, bs: nat)
    ensures HasSpace(s.lists, |name|) ==> CanTake(s, |name|, bs)
    ensures !HasSpace(s.lists, |name|) ==>
      Added(s, ino, kind, name, bs) == Grown(s, ino, kind, name, bs) && CanTake(s, |name|, bs) == CanGrow(s, bs)
    ensures s.sb == 0 ==> !CanGrow(s, bs)
  {
  }

  /**
   * ext2_add_dir_entry, for a name the directory does not have. The entry is added
   * exactly if some record has room or the directory can grow. Otherwise -1 tells of a
   * full disk; but when only the new block's place could not be had, 0 is returned all
   * the same and the entry is lost.
   */
  method AddEntry(fs: Volume, f: nat, ino: nat, name: Name, kind: byte, ghost lists: seq<seq<Rec>>)
    returns (r: int, lost: bool)
    requires fs.Valid() && fs.AllStored() && fs.Mounted() && IsDirectory(fs.disk, fs.ins, f, fs.layout.bs, lists)
    requires |name| < 256 && 0 < ino < 0x1_0000_0000 && (|lists| + 1) * fs.layout.bs < 0x1_0000_0000
      && name !in DirNames(lists)
    modifies fs`disk, fs`groupFree, fs`sbFree, fs`blockBuf, fs`indBuf, fs`owned, fs`ins
    ensures fs.Valid() && fs.AllStored() && OnlyInode(old(fs.ins), fs.ins, f)
    ensures OthersSame(old(fs.disk), old(fs.ins), fs.disk, fs.ins, fs.layout.bs, f)
    ensures AddedTo(DirOf(old(fs.ins), f, lists, old(fs.sbFree)), ino, kind, name, r, lost,
                    fs.disk, fs.ins, fs.sbFree, f, fs.layout.bs)
    ensures old(fs.Synced()) ==> fs.Synced()
  {
    hide Good, Flushed, At, PlaceOf, Content, StoredBut, IsDirectory, Reads, OnlyBlock, OthersSame, Entries, Distinct,
         SizeOf, ModeOf, DirNames, Splittable, Stretched, FirstList, FirstRec, Grown, Loaded, HoldsList, Became, DirOf,
         Added, CanTake, CanGrow;
    DirSize(fs.disk, fs.ins, f, fs.layout.bs, lists);
    var inode := fs.ReadInode(f);
    var found, i, b, o, k := FindSpace(fs, inode, f, |name|, lists);
    DirIs(fs.ins, f, lists, fs.sbFree);
    AddedWhere(DirOf(fs.ins, f, lists, fs.sbFree), ino, kind, name, fs.layout.bs);
    if found {
      PutInSpace(fs, f, ino, name, kind, i, b, o, k, lists);
      return 0, false;
    }
    AppendName(lists, Rec(ino, fs.layout.bs, kind, name));
    r, lost := AppendBlock(fs, f, inode, ino, name, kind, lists);
  }

  // ----- runs -----

  datatype Request = Seek(name: Name) | Create(name: Name, ino: nat) | Unlink(name: Name)

  /** What a request does to the map. */
  function After(m: map<Name, nat>, q: Request): map<Name, nat> {
    match q
    case Seek(_) => m
    case Create(name, ino) => if name in m then m else m[name := ino]
    case Unlink(name) => m - {name}
  }

  /** What it answers: an inode number, and 0 for failure. */
  function Answer(m: map<Name, nat>, q: Request): nat {
    match q
    case Seek(name) => Found(m, name)
    case Create(name, ino) => if name in m then 0 else ino
    case Unlink(name) => if name in m then 1 else 0
  }

  function AfterAll(m: map<Name, nat>, qs: seq<Request>): map<Name, nat> {
    if qs == [] then m else After(AfterAll(m, qs[..|qs| - 1]), qs[|qs| - 1])
  }

  function Start(qs: seq<Request>, k: nat): seq<Request> { if k <= |qs| then qs[..k] else qs }

  predicate Allowed(q: Request) { |q.name| < 256 && (q.Create? ==> 0 < q.ino < 0x1_0000_0000) }

  ghost predicate HasDirMode(ins: Inodes, f: nat) { f in ins && IsDirMode(ins[f]) }

  /** The request is no creation of a new name the directory cannot take. */
  predicate Fits(s: Dir, q: Request, bs: nat) {
    q.Create? && q.name !in DirNames(s.lists) ==> CanTake(s, |q.name|, bs)
  }

  /** A request that does not fit is refused if the disk is full; else its entry is lost. */
  predicate Loses(s: Dir, q: Request, bs: nat) { !Fits(s, q, bs) && s.sb > 0 }

  /** The directory after a request. */
  function Next(s: Dir, q: Request, bs: nat): Dir {
    match q
    case Seek(_) => s
    case Create(name, ino) => if name in DirNames(s.lists) then s else Added(s, ino, 1, name, bs)
    case Unlink(name) => s.(lists := Without(s.lists, name))
  }

  /** What a request answers: a creation that is refused fails, one whose entry is lost does not. */
  function Reply(s: Dir, q: Request, bs: nat): nat {
    if !Fits(s, q, bs) && s.sb == 0 then 0 else Answer(DirNames(s.lists), q)
  }

  /** A request that fits does to the directory what it does to the map; one that does not fit, nothing. */
  lemma NextIsMap(s: Dir, q: Request, bs: nat)
    requires Distinct(Entries(s.lists)) && Allowed(q)
    ensures Distinct(Entries(Next(s, q, bs).lists))
    ensures DirNames(Next(s, q, bs).lists) ==
      if Fits(s, q, bs) then After(DirNames(s.lists), q) else DirNames(s.lists)
  {
    hide DirNames, Entries, Distinct, HasSpace, With, Without, CanGrow;
    match q
    case Seek(_) =>
    case Unlink(name) => WithoutNames(s.lists, name);
    case Create(name, ino) =>
      if name !in DirNames(s.lists) {
        if HasSpace(s.lists, |name|) {
          WithNames(s.lists, ino, 1, name);
        } else if CanGrow(s, bs) {
          AppendName(s.lists, Rec(ino, bs, 1, name));
        }
      }
  }

  /** A directory with its volume, in the middle of a run. */
  datatype Moment = Moment(vol: Ext2Runs.Moment, lists: seq<seq<Rec>>)

  ghost function DirAt(m: Moment, f: nat): Dir { DirOf(m.vol.ins, f, m.lists, m.vol.sb) }

  ghost predicate Sound(l: Layout, kind: map<nat, Use>, m: Moment, f: nat, lost: bool) {
    && Ext2Runs.Settled(l, kind, m.vol) && HasDirMode(m.vol.ins, f)
    && Remains(m.vol.d, m.vol.ins, f, l.bs, m.lists, lost)
    && (!lost ==> (|m.lists| + 1) * l.bs < 0x1_0000_0000)
  }

  /** A request leads from one directory to the next, and leaves the other files alone. */
  ghost predicate Step(m: Moment, q: Request, answer: nat, m': Moment, f: nat, bs: nat) {
    && DirAt(m', f) == Next(DirAt(m, f), q, bs) && answer == Reply(DirAt(m, f), q, bs)
    && OthersSame(m.vol.d, m.vol.ins, m'.vol.d, m'.vol.ins, bs, f) && OnlyInode(m.vol.ins, m'.vol.ins, f)
  }

  lemma SizeFits(bs: nat, n: nat)
    requires bs <= 4096 && n <= 12 + Ptrs(bs)
    ensures (n + 1) * bs < 0x1_0000_0000
  {
    Multiples(n + 1, 13 + Ptrs(bs), bs);
    Multiples(13 + Ptrs(bs), 2000, bs);
  }

  lemma {:induction false} SizeAfter(s: Dir, q: Request, bs: nat)
    requires bs <= 4096 && (|s.lists| + 1) * bs < 0x1_0000_0000
    ensures (|Next(s, q, bs).lists| + 1) * bs < 0x1_0000_0000
  {
    hide DirNames, FirstList, FirstRec, Unlinked, SplitList;
    if |Next(s, q, bs).lists| != |s.lists| {
      SizeFits(bs, |Next(s, q, bs).lists|);
    }
  }

  /** Creates, unlinks and lookups, as ext2_create, ext2_unlink and ext2_lookup use the directory. */
  method Serve(fs: Volume, f: nat, q: Request, ghost m: Moment) returns (answer: nat, lost: bool, ghost m': Moment)
    requires fs.Valid() && fs.Mounted() && m.vol == Ext2Runs.Now(fs) && Sound(fs.layout, fs.kind, m, f, false)
      && Allowed(q)
    modifies fs
    ensures fs.Valid() && m'.vol == Ext2Runs.Now(fs) && Step(m, q, answer, m', f, fs.layout.bs)
    ensures lost == Loses(DirAt(m, f), q, fs.layout.bs) && Sound(fs.layout, fs.kind, m', f, lost)
    ensures old(fs.Synced()) ==> fs.Synced()
  {
    hide Good, Flushed, StoredBut, IsDirectory, DirNames, OthersSame, TestBit, ModeOf, Stretched, Added, CanTake,
         Indirect, Without, Entries, Distinct;
    ghost var s, bs := DirAt(m, f), fs.layout.bs;
    SameOthers(fs.disk, fs.ins, bs, f);
    SizeAfter(s, q, bs);
    lost := false;
    match q {
      case Seek(name) =>
        answer := Lookup(fs, f, name, m.lists);
      case Unlink(name) =>
        var r := RemoveEntry(fs, f, name, m.lists);
        answer := if r == 0 then 1 else 0;
      case Create(name, ino) =>
        var there := Lookup(fs, f, name, m.lists);
        if name in DirNames(m.lists) {
          LiveName(m.lists, name);
        }
        if there != 0 {
          answer := 0;
        } else {
          var r;
          r, lost := AddEntry(fs, f, ino, name, 1, m.lists);
          answer := if r == 0 then ino else 0;
        }
    }
    m' := Moment(Ext2Runs.Now(fs), Next(s, q, bs).lists);
  }

  lemma LiveName(lists: seq<seq<Rec>>, name: Name)
    requires name in DirNames(lists)
    ensures DirNames(lists)[name] != 0
  {
    NamesLive(Flat(lists), name);
  }

  /** The answers tell a chain of steps through sound directories, up to the first entry that is lost. */
  ghost predicate Trace(l: Layout, kind: map<nat, Use>, f: nat, qs: seq<Request>, answers: seq<nat>,
                        moments: seq<Moment>)
  {
    && |answers| <= |qs| && |moments| == |answers| + 1
    && (forall k :: 0 <= k < |answers| ==> Step(moments[k], qs[k], answers[k], moments[k + 1], f, l.bs))
    && (forall k :: 0 <= k < |answers| ==> Sound(l, kind, moments[k], f, false))
    && (forall k :: 0 <= k < |answers| - 1 ==> !Loses(DirAt(moments[k], f), qs[k], l.bs))
  }

  /** The last request of a run lost its entry. */
  ghost predicate EndsInLoss(f: nat, qs: seq<Request>, answers: seq<nat>, moments: seq<Moment>, bs: nat) {
    && 0 < |answers| <= |qs| && |answers| <= |moments|
    && Loses(DirAt(moments[|answers| - 1], f), qs[|answers| - 1], bs)
  }

  lemma TraceNone(l: Layout, kind: map<nat, Use>, f: nat, qs: seq<Request>, m: Moment)
    ensures Trace(l, kind, f, qs, [], [m]) && !EndsInLoss(f, qs, [], [m], l.bs)
  {
  }

  lemma TraceMore(l: Layout, kind: map<nat, Use>, f: nat, qs: seq<Request>, answers: seq<nat>, moments: seq<Moment>,
                  m: Moment, answer: nat, m': Moment)
    requires Trace(l, kind, f, qs, answers, moments) && |answers| < |qs| && moments[|answers|] == m
    requires !EndsInLoss(f, qs, answers, moments, l.bs) && Sound(l, kind, m, f, false)
    requires Step(m, qs[|answers|], answer, m', f, l.bs)
    ensures Trace(l, kind, f, qs, answers + [answer], moments + [m'])
    ensures EndsInLoss(f, qs, answers + [answer], moments + [m'], l.bs) <==> Loses(DirAt(m, f), qs[|answers|], l.bs)
  {
    hide Step, Sound, Loses, DirAt;
  }

  /**
   * Any run of creates, unlinks and lookups on a directory: every request is a step from
   * the directory the one before it left, refusals included, and only a lost entry ends
   * it early. Then every record is still in its block.
   */
  method Run(fs: Volume, f: nat, qs: seq<Request>, ghost lists: seq<seq<Rec>>)
    returns (answers: seq<nat>, ghost moments: seq<Moment>)
    requires fs.Valid() && fs.Mounted() && Sound(fs.layout, fs.kind, Moment(Ext2Runs.Now(fs), lists), f, false)
    requires forall q :: q in qs ==> Allowed(q)
    modifies fs
    ensures fs.Valid() && Trace(fs.layout, fs.kind, f, qs, answers, moments) && |moments| == |answers| + 1
    ensures moments[0] == Moment(old(Ext2Runs.Now(fs)), lists) && moments[|answers|].vol == Ext2Runs.Now(fs)
    ensures |answers| < |qs| ==> EndsInLoss(f, qs, answers, moments, fs.layout.bs)
    ensures Sound(fs.layout, fs.kind, moments[|answers|], f, EndsInLoss(f, qs, answers, moments, fs.layout.bs))
    ensures old(fs.Synced()) ==> fs.Synced()
  {
    hide Good, Flushed, Sound, Step, Loses, DirAt, Trace, EndsInLoss, Allowed;
    ghost var m := Moment(Ext2Runs.Now(fs), lists);
    answers, moments := [], [m];
    TraceNone(fs.layout, fs.kind, f, qs, m);
    while |answers| < |qs|
      invariant |answers| <= |qs| && fs.Valid() && fs.Mounted() && m.vol == Ext2Runs.Now(fs)
      invariant Trace(fs.layout, fs.kind, f, qs, answers, moments)
      invariant |moments| == |answers| + 1 && moments[|answers|] == m
      invariant moments[0] == Moment(old(Ext2Runs.Now(fs)), lists)
      invariant old(fs.Synced()) ==> fs.Synced()
      invariant Sound(fs.layout, fs.kind, m, f, false) && !EndsInLoss(f, qs, answers, moments, fs.layout.bs)
      decreases |qs| - |answers|
    {
      var answer, lost;
      ghost var m';
      answer, lost, m' := Serve(fs, f, qs[|answers|], m);
      TraceMore(fs.layout, fs.kind, f, qs, answers, moments, m, answer, m');
      answers, moments, m := answers + [answer], moments + [m'], m';
      if lost {
        return;
      }
    }
  }

  // ----- the map -----

  lemma AfterOne(m: map<Name, nat>, qs: seq<Request>, k: nat)
    requires k < |qs|
    ensures AfterAll(m, Start(qs, k + 1)) == After(AfterAll(m, Start(qs, k)), qs[k])
  {
    var t := Start(qs, k + 1);
    assert t[..|t| - 1] == Start(qs, k);
  }

  lemma AfterNone(m: map<Name, nat>, qs: seq<Request>)
    ensures AfterAll(m, Start(qs, 0)) == m
  {
  }

  lemma StepIsMap(l: Layout, kind: map<nat, Use>, m: Moment, q: Request, answer: nat, m': Moment, f: nat)
    requires Sound(l, kind, m, f, false) && Step(m, q, answer, m', f, l.bs) && Allowed(q)
    ensures DirNames(m'.lists) ==
      if Fits(DirAt(m, f), q, l.bs) then After(DirNames(m.lists), q) else DirNames(m.lists)
    ensures Fits(DirAt(m, f), q, l.bs) ==> answer == Answer(DirNames(m.lists), q)
  {
    hide DirNames, Entries, Distinct, Next, Fits, After, OthersSame, Good, StoredBut, Indirect, Answer, HoldsList,
         SizeOf;
    NextIsMap(DirAt(m, f), q, l.bs);
  }

  /** As long as every request fits, a run on the directory is a run on a finite map. */
  lemma {:induction false} RunIsMap(l: Layout, kind: map<nat, Use>, f: nat, qs: seq<Request>, answers: seq<nat>,
                                    moments: seq<Moment>, n: nat)
    requires Trace(l, kind, f, qs, answers, moments) && n <= |answers| && forall q :: q in qs ==> Allowed(q)
    requires forall k :: 0 <= k < n ==> Fits(DirAt(moments[k], f), qs[k], l.bs)
    ensures var m := DirNames(moments[0].lists);
            && (forall k :: 0 <= k < n ==> answers[k] == Answer(AfterAll(m, Start(qs, k)), qs[k]))
            && DirNames(moments[n].lists) == AfterAll(m, Start(qs, n))
  {
    hide Sound, Step, Fits, DirNames, After, AfterAll, Answer, Loses, Allowed;
    var m := DirNames(moments[0].lists);
    if n == 0 {
      AfterNone(m, qs);
    } else {
      RunIsMap(l, kind, f, qs, answers, moments, n - 1);
      StepIsMap(l, kind, moments[n - 1], qs[n - 1], answers[n - 1], moments[n], f);
      AfterOne(m, qs, n - 1);
    }
  }

  // ----- what a lookup finds is what was last linked -----

  /** What a lookup of the name would find now. */
  ghost function Linked(m: Moment, name: Name): nat { Found(DirNames(m.lists), name) }

  lemma LinkKept(l: Layout, kind: map<nat, Use>, m: Moment, q: Request, answer: nat, m': Moment, f: nat, name: Name)
    requires Sound(l, kind, m, f, false) && Step(m, q, answer, m', f, l.bs) && Allowed(q)
    requires q.name == name && q.Create? ==> Linked(m, name) != 0
    requires !(q.name == name && q.Unlink?)
    ensures Linked(m', name) == Linked(m, name)
  {
    hide Sound, Step, DirNames, Fits;
    StepIsMap(l, kind, m, q, answer, m', f);
  }

  lemma {:induction false} LinkStays(l: Layout, kind: map<nat, Use>, f: nat, qs: seq<Request>, answers: seq<nat>,
                                     ms: seq<Moment>, a: nat, b: nat, name: Name)
    requires Trace(l, kind, f, qs, answers, ms) && a <= b <= |answers| && forall q :: q in qs ==> Allowed(q)
    requires forall k :: a <= k < b && qs[k].name == name ==>
      !qs[k].Unlink? && (qs[k].Create? ==> Linked(ms[a], name) != 0)
    ensures Linked(ms[b], name) == Linked(ms[a], name)
    decreases b
  {
    hide Step, Sound, Loses, Allowed, Linked;
    if a < b {
      LinkStays(l, kind, f, qs, answers, ms, a, b - 1, name);
      LinkKept(l, kind, ms[b - 1], qs[b - 1], answers[b - 1], ms[b], f, name);
    }
  }

  /**
   * After a creation that answered with its inode number a lookup of the name answers that
   * number until the name is unlinked; after an unlink it answers 0 until the name is created.
   */
  lemma SeeksLastLink(l: Layout, kind: map<nat, Use>, f: nat, qs: seq<Request>, answers: seq<nat>, ms: seq<Moment>,
                      a: nat, b: nat, name: Name)
    requires Trace(l, kind, f, qs, answers, ms) && a < b < |answers| && forall q :: q in qs ==> Allowed(q)
    requires !qs[a].Seek? && qs[a].name == name && answers[a] != 0 && qs[b] == Seek(name)
    requires forall k :: a < k < b && qs[k].name == name ==> if qs[a].Create? then !qs[k].Unlink? else !qs[k].Create?
    ensures answers[b] == if qs[a].Create? then qs[a].ino else 0
  {
    var n := a + 1;
    assert Allowed(qs[a]);
    hide Sound, Trace, DirNames;
    LinkMade(l, kind, f, qs, answers, ms, a);
    SeekFinds(l, kind, f, qs, answers, ms, b, name);
    if qs[a].Create? {
      LinkStays(l, kind, f, qs, answers, ms, n, b, name);
    } else {
      GoneStays(l, kind, f, qs, answers, ms, n, b, name);
    }
  }

  lemma LinkMade(l: Layout, kind: map<nat, Use>, f: nat, qs: seq<Request>, answers: seq<nat>, ms: seq<Moment>, a: nat)
    requires Trace(l, kind, f, qs, answers, ms) && a < |answers| - 1 && Allowed(qs[a])
    requires !qs[a].Seek? && answers[a] != 0
    ensures Linked(ms[a + 1], qs[a].name) == if qs[a].Create? then qs[a].ino else 0
  {
    var n := a + 1;
    assert Step(ms[a], qs[a], answers[a], ms[n], f, l.bs) && Sound(l, kind, ms[a], f, false);
    assert !Loses(DirAt(ms[a], f), qs[a], l.bs);
    StepIsMap(l, kind, ms[a], qs[a], answers[a], ms[n], f);
    hide Sound, DirNames, Next, OthersSame, CanTake;
  }

  lemma SeekFinds(l: Layout, kind: map<nat, Use>, f: nat, qs: seq<Request>, answers: seq<nat>, ms: seq<Moment>, b: nat,
                  name: Name)
    requires Trace(l, kind, f, qs, answers, ms) && b < |answers| && qs[b] == Seek(name)
    ensures answers[b] == Linked(ms[b], name)
  {
    assert Step(ms[b], qs[b], answers[b], ms[b + 1], f, l.bs);
    hide Sound, DirNames, Next, OthersSame, CanTake;
  }

  /** A name that is gone stays gone until it is created. */
  lemma {:induction false} GoneStays(l: Layout, kind: map<nat, Use>, f: nat, qs: seq<Request>, answers: seq<nat>,
                                     ms: seq<Moment>, a: nat, b: nat, name: Name)
    requires Trace(l, kind, f, qs, answers, ms) && a <= b <= |answers| && forall q :: q in qs ==> Allowed(q)
    requires Linked(ms[a], name) == 0 && forall k :: a <= k < b && qs[k].name == name ==> !qs[k].Create?
    ensures Linked(ms[b], name) == 0
    decreases b
  {
    hide Step, Sound, Loses, Allowed, DirNames;
    if a < b {
      GoneStays(l, kind, f, qs, answers, ms, a, b - 1, name);
      StepIsMap(l, kind, ms[b - 1], qs[b - 1], answers[b - 1], ms[b], f);
    }
  }

  /** There is room for `n` more entries, however long their names: pointers for blocks, and free blocks. */
  predicate Spacious(s: Dir, n: nat, bs: nat) { |s.lists| + n <= 12 + Ptrs(bs) && 2 * n <= s.sb }

  lemma SpaceEnough(s: Dir, q: Request, n: nat, bs: nat)
    requires Spacious(s, n, bs) && 0 < n
    ensures Fits(s, q, bs) && Spacious(Next(s, q, bs), n - 1, bs)
  {
    hide HasSpace, DirNames, Ptrs, FirstList, FirstRec, SplitList, Unlinked;
  }

  /** With room for as many entries as there are requests, every request fits, and none is lost. */
  lemma {:induction false} SpaciousRun(l: Layout, kind: map<nat, Use>, f: nat, qs: seq<Request>, answers: seq<nat>,
                                       moments: seq<Moment>, n: nat)
    requires Trace(l, kind, f, qs, answers, moments) && n <= |answers| && Spacious(DirAt(moments[0], f), |qs|, l.bs)
    ensures forall k :: 0 <= k < n ==> Fits(DirAt(moments[k], f), qs[k], l.bs)
    ensures Spacious(DirAt(moments[n], f), |qs| - n, l.bs)
  {
    hide Sound, Fits, Spacious, Next, Reply, OthersSame, OnlyInode, DirAt;
    if n > 0 {
      SpaciousRun(l, kind, f, qs, answers, moments, n - 1);
      assert Step(moments[n - 1], qs[n - 1], answers[n - 1], moments[n], f, l.bs);
      SpaceEnough(DirAt(moments[n - 1], f), qs[n - 1], |qs| - n + 1, l.bs);
    }
  }

  /** Whatever is refused or lost, an entry stays what it is until its name is unlinked. */
  lemma {:induction false} EntryStays(l: Layout, kind: map<nat, Use>, f: nat, qs: seq<Request>, answers: seq<nat>,
                                      moments: seq<Moment>, a: nat, b: nat, name: Name)
    requires Trace(l, kind, f, qs, answers, moments) && a <= b <= |answers| && forall q :: q in qs ==> Allowed(q)
    requires name in DirNames(moments[a].lists) && forall k :: a <= k < b ==> qs[k] != Unlink(name)
    ensures name in DirNames(moments[b].lists) && DirNames(moments[b].lists)[name] == DirNames(moments[a].lists)[name]
    decreases b
  {
    hide Sound, Step, Fits, DirNames, Loses, Allowed;
    if a < b {
      EntryStays(l, kind, f, qs, answers, moments, a, b - 1, name);
      StepIsMap(l, kind, moments[b - 1], qs[b - 1], answers[b - 1], moments[b], f);
    }
  }

  // ----- the room an entry leaves -----

  /** Unlinking an entry that is not the first of its block leaves room for a name as long. */
  lemma RoomAfterUnlink(lists: seq<seq<Rec>>, name: Name, n: nat)
    requires var i := FirstList(lists, Named(name));
             && i < |lists| && 0 < FirstRec(lists[i], Named(name))
             && forall k :: 0 <= k < |lists[i]| ==> RecOk(lists[i][k])
    requires n <= |name|
    ensures HasSpace(Without(lists, name), n)
  {
    hide FirstList, FirstRec;
    var i := FirstList(lists, Named(name));
    var k := FirstRec(lists[i], Named(name));
    NeededMore(n, |name|);
    HasRoomAt(Without(lists, name), n, i, k - 1);
  }

  lemma NeededMore(n: nat, m: nat)
    requires n <= m
    ensures Needed(n) <= Needed(m)
  {
  }

  lemma HasRoomAt(lists: seq<seq<Rec>>, n: nat, i: nat, k: nat)
    requires i < |lists| && k < |lists[i]| && Roomy(lists[i][k], n)
    ensures HasSpace(lists, n)
  {
    hide FirstList, FirstRec, Roomy;
    assert Meets(lists[i][k], Space(n));
    assert !Lacks(lists[i], Space(n));
  }

  /** The lists have room in the same places. */
  ghost predicate SameRoom(lists: seq<seq<Rec>>, lists': seq<seq<Rec>>, n: nat) {
    && |lists'| == |lists|
    && forall j, k :: 0 <= j < |lists| && 0 <= k < |lists[j]| && Roomy(lists[j][k], n) ==>
         k < |lists'[j]| && Roomy(lists'[j][k], n)
  }

  lemma RoomMoves(lists: seq<seq<Rec>>, lists': seq<seq<Rec>>, n: nat)
    requires SameRoom(lists, lists', n) && HasSpace(lists, n)
    ensures HasSpace(lists', n)
  {
    hide FirstList, FirstRec, Roomy;
    var j := FirstList(lists, Space(n));
    var k := FirstRec(lists[j], Space(n));
    assert Meets(lists[j][k], Space(n));
    HasRoomAt(lists', n, j, k);
  }

  lemma OneListSame(lists: seq<seq<Rec>>, i: nat, rs: seq<Rec>, n: nat)
    requires i < |lists| && |rs| == |lists[i]| && forall k :: 0 <= k < |rs| ==> Roomy(rs[k], n) == Roomy(lists[i][k], n)
    ensures SameRoom(lists, lists[i := rs], n) && SameRoom(lists[i := rs], lists, n)
  {
    hide Roomy;
  }

  lemma FirstDead(rs: seq<Rec>, n: nat)
    requires rs != []
    ensures var u := Unlinked(rs, 0);
            |u| == |rs| && forall k :: 0 <= k < |rs| ==> Roomy(u[k], n) == Roomy(rs[k], n)
  {
    hide Needed;
  }

  /** Unlinking the first entry of a block leaves no more room than there was. */
  lemma NoRoomAfterFirst(lists: seq<seq<Rec>>, name: Name, n: nat)
    requires var i := FirstList(lists, Named(name)); i < |lists| && FirstRec(lists[i], Named(name)) == 0
    ensures HasSpace(Without(lists, name), n) <==> HasSpace(lists, n)
  {
    hide FirstList, FirstRec, HasSpace, Roomy, Unlinked, SameRoom;
    var i, lists' := FirstList(lists, Named(name)), Without(lists, name);
    FirstDead(lists[i], n);
    OneListSame(lists, i, Unlinked(lists[i], 0), n);
    if HasSpace(lists, n) {
      RoomMoves(lists, lists', n);
    }
    if HasSpace(lists', n) {
      RoomMoves(lists', lists, n);
    }
  }
}
