/** Directory blocks of ext2 (kernel/fs/ext2.c): records of varying length that tile a block. */
module Ext2Records {
  import opened Bytes

  type Name = seq<byte>

  /** A directory entry; it is dead when `ino` is 0. */
  datatype Rec = Rec(ino: nat, len: nat, kind: byte, name: Name)

  /** Bytes an entry with a name of `n` bytes needs, rounded up to 4. */
  function Needed(n: nat): nat { (8 + n + 3) / 4 * 4 }

  lemma NeededHolds(n: nat)
    ensures 8 + n <= Needed(n) <= 11 + n && Needed(n) % 4 == 0
  {
  }

  /** The record at `o` is `r`. */
  predicate IsAt(b: seq<byte>, o: nat, r: Rec) {
    && o + 8 + |r.name| <= |b| && Field(b, o, 4) == r.ino && Field(b, o + 4, 2) == r.len
    && b[o + 6] == |r.name| && b[o + 7] == r.kind && b[o + 8..o + 8 + |r.name|] == r.name
  }

  /** The record is long enough for its name. */
  predicate RecOk(r: Rec) { Needed(|r.name|) <= r.len }

  /** The bytes from `o` to `e` are exactly the records `rs`, end to end. */
  predicate Reads(b: seq<byte>, o: nat, e: nat, rs: seq<Rec>)
    decreases |rs|
  {
    if rs == [] then o == e <= |b|
    else IsAt(b, o, rs[0]) && RecOk(rs[0]) && o + rs[0].len <= e && Reads(b, o + rs[0].len, e, rs[1..])
  }

  lemma {:induction false} ReadsBound(b: seq<byte>, o: nat, e: nat, rs: seq<Rec>)
    requires Reads(b, o, e, rs)
    ensures o <= e <= |b|
    decreases |rs|
  {
    hide IsAt, RecOk;
    if rs != [] {
      ReadsBound(b, o + rs[0].len, e, rs[1..]);
    }
  }

  lemma {:induction false} ReadsJoin(b: seq<byte>, o: nat, m: nat, e: nat, r: seq<Rec>, s: seq<Rec>)
    requires Reads(b, o, m, r) && Reads(b, m, e, s)
    ensures Reads(b, o, e, r + s)
    decreases |r|
  {
    hide IsAt, RecOk;
    ReadsBound(b, m, e, s);
    if r == [] {
      assert r + s == s;
    } else {
      ReadsJoin(b, o + r[0].len, m, e, r[1..], s);
      assert (r + s)[1..] == r[1..] + s;
    }
  }

  /** A block holds one list of records only. */
  lemma {:induction false} ReadsUnique(b: seq<byte>, o: nat, e: nat, r: seq<Rec>, s: seq<Rec>)
    requires Reads(b, o, e, r) && Reads(b, o, e, s)
    ensures r == s
    decreases |r|
  {
    if r != [] && s != [] {
      assert r[0] == s[0];
      ReadsUnique(b, o + r[0].len, e, r[1..], s[1..]);
      assert r == [r[0]] + r[1..] && s == [s[0]] + s[1..];
    } else if r != [] {
      ReadsLonger(b, o, e, r);
    } else if s != [] {
      ReadsLonger(b, o, e, s);
    }
  }

  lemma ReadsLonger(b: seq<byte>, o: nat, e: nat, rs: seq<Rec>)
    requires Reads(b, o, e, rs) && rs != []
    ensures o + 8 <= o + rs[0].len <= e
  {
    NeededHolds(|rs[0].name|);
  }

  lemma SameAt(b: seq<byte>, c: seq<byte>, o: nat, r: Rec)
    requires IsAt(b, o, r) && RecOk(r) && |c| == |b| && forall i :: o <= i < o + r.len && i < |b| ==> c[i] == b[i]
    ensures IsAt(c, o, r)
  {
    NeededHolds(|r.name|);
    hide Needed;
    assert c[o..o + 4] == b[o..o + 4] && c[o + 4..o + 6] == b[o + 4..o + 6];
    assert c[o + 8..o + 8 + |r.name|] == b[o + 8..o + 8 + |r.name|];
  }

  /** Records depend on the bytes they cover and no others. */
  lemma {:induction false} SameReads(b: seq<byte>, c: seq<byte>, o: nat, e: nat, rs: seq<Rec>)
    requires Reads(b, o, e, rs) && |c| == |b| && forall i :: o <= i < e && i < |b| ==> c[i] == b[i]
    ensures Reads(c, o, e, rs)
    decreases |rs|
  {
    hide IsAt, RecOk;
    if rs != [] {
      SameAt(b, c, o, rs[0]);
      SameReads(b, c, o + rs[0].len, e, rs[1..]);
    }
  }

  lemma OneReads(b: seq<byte>, o: nat, r: Rec)
    requires IsAt(b, o, r) && RecOk(r) && o + r.len <= |b|
    ensures Reads(b, o, o + r.len, [r])
  {
    hide IsAt, RecOk;
    assert [r][1..] == [];
    assert Reads(b, o + r.len, o + r.len, []);
  }

  /** Replacing the bytes of some records by other records. */
  lemma Replace(b: seq<byte>, c: seq<byte>, o: nat, e: nat, before: seq<Rec>, mid: seq<Rec>, after: seq<Rec>)
    requires Reads(b, 0, o, before) && Reads(b, e, |b|, after) && |c| == |b| && Reads(c, o, e, mid)
    requires forall i :: 0 <= i < |b| && (i < o || i >= e) ==> c[i] == b[i]
    ensures Reads(c, 0, |b|, before + mid + after)
  {
    hide Reads;
    SameReads(b, c, 0, o, before);
    SameReads(b, c, e, |b|, after);
    ReadsJoin(c, 0, o, e, before, mid);
    ReadsJoin(c, 0, e, |b|, before + mid, after);
  }

  /** The header and name of a new entry. */
  function Entry(ino: nat, len: nat, kind: byte, name: Name): (r: seq<byte>)
    requires |name| < 256
    ensures |r| == 8 + |name|
  {
    Le(4, ino) + Le(2, len) + [|name|, kind] + name
  }

  lemma EntryIs(b: seq<byte>, o: nat, ino: nat, len: nat, kind: byte, name: Name)
    requires |name| < 256 && o + 8 + |name| <= |b| && ino < 0x1_0000_0000 && len < 0x1_0000
    requires b[o..o + 8 + |name|] == Entry(ino, len, kind, name)
    ensures IsAt(b, o, Rec(ino, len, kind, name))
  {
    var t, s := Entry(ino, len, kind, name), b[o..o + 8 + |name|];
    assert t[0..4] == Le(4, ino) && t[4..6] == Le(2, len) && t[8..] == name;
    SubSlice(b, o, 8 + |name|, 0, 4);
    SubSlice(b, o, 8 + |name|, 4, 6);
    SubSlice(b, o, 8 + |name|, 8, 8 + |name|);
    assert t[8..8 + |name|] == name;
    assert Pow256(4) == 0x1_0000_0000 && Pow256(2) == 0x1_0000;
    ValLe(4, ino);
    ValLe(2, len);
    assert b[o + 6] == s[6] && b[o + 7] == s[7];
  }

  lemma Relength(b: seq<byte>, o: nat, r: Rec, len: nat)
    requires IsAt(b, o, r) && len < 0x1_0000
    ensures IsAt(PutField(b, o + 4, 2, len), o, r.(len := len))
  {
    var c := PutField(b, o + 4, 2, len);
    assert Pow256(2) == 0x1_0000;
    FieldOfPut(b, o + 4, 2, len, o + 4, 2);
    FieldOfPut(b, o + 4, 2, len, o, 4);
    assert c[o + 8..o + 8 + |r.name|] == b[o + 8..o + 8 + |r.name|];
  }

  /** The two records a record with spare room is split into. */
  function Halves(r: Rec, ino: nat, kind: byte, name: Name): seq<Rec>
    requires Needed(|r.name|) <= r.len
  {
    [r.(len := Needed(|r.name|)), Rec(ino, r.len - Needed(|r.name|), kind, name)]
  }

  /** Writing the two halves over the record. */
  lemma SplitRecord(b: seq<byte>, o: nat, r: Rec, ino: nat, kind: byte, name: Name, keep: nat, m: seq<byte>,
                    c: seq<byte>)
    requires |name| < 256 && ino < 0x1_0000_0000 && r.len < 0x1_0000 && IsAt(b, o, r) && o + r.len <= |b|
    requires keep == Needed(|r.name|) && keep + Needed(|name|) <= r.len && o + keep + 8 + |name| <= |b|
    requires m == PutField(b, o + 4, 2, keep) && c == Splice(m, o + keep, Entry(ino, r.len - keep, kind, name))
    ensures Reads(c, o, o + r.len, [r.(len := keep)] + [Rec(ino, r.len - keep, kind, name)])
  {
    var first, second := r.(len := keep), Rec(ino, r.len - keep, kind, name);
    NeededHolds(|r.name|);
    assert RecOk(first) && RecOk(second);
    hide Reads, IsAt, Needed, PutField, RecOk;
    SplitFirst(b, o, r, keep, m, c, Entry(ino, r.len - keep, kind, name));
    assert IsAt(c, o + keep, second) by {
      assert c[o + keep..o + keep + 8 + |name|] == Entry(ino, r.len - keep, kind, name);
      EntryIs(c, o + keep, ino, r.len - keep, kind, name);
    }
    hide Entry, Splice;
    OneReads(c, o, first);
    OneReads(c, o + keep, second);
    ReadsJoin(c, o, o + keep, o + r.len, [first], [second]);
  }

  lemma SplitFirst(b: seq<byte>, o: nat, r: Rec, keep: nat, m: seq<byte>, c: seq<byte>, t: seq<byte>)
    requires IsAt(b, o, r) && keep == Needed(|r.name|) && keep < 0x1_0000 && o + keep + |t| <= |b|
    requires m == PutField(b, o + 4, 2, keep) && c == Splice(m, o + keep, t)
    ensures IsAt(c, o, r.(len := keep))
  {
    Relength(b, o, r, keep);
    assert RecOk(r.(len := keep));
    hide IsAt, Needed, PutField;
    SameAt(m, c, o, r.(len := keep));
  }

  /** ext2_add_dir_entry on one block: the record at `o` shrinks to what it needs, the new one takes the rest. */
  lemma AddToBlock(b: seq<byte>, o: nat, before: seq<Rec>, r: Rec, after: seq<Rec>, ino: nat, kind: byte, name: Name,
                   keep: nat, m: seq<byte>, c: seq<byte>)
    requires |b| < 0x1_0000 && |name| < 256 && ino < 0x1_0000_0000 && IsAt(b, o, r) && o + r.len <= |b|
    requires keep == Needed(|r.name|) && keep + Needed(|name|) <= r.len && o + keep + 8 + |name| <= |b|
    requires m == PutField(b, o + 4, 2, keep) && c == Splice(m, o + keep, Entry(ino, r.len - keep, kind, name))
    requires Reads(b, 0, o, before) && Reads(b, o + r.len, |b|, after)
    ensures Reads(c, 0, |b|, before + Halves(r, ino, kind, name) + after)
  {
    hide Reads, IsAt;
    NeededHolds(|name|);
    NeededHolds(|r.name|);
    SplitRecord(b, o, r, ino, kind, name, keep, m, c);
    assert [r.(len := keep)] + [Rec(ino, r.len - keep, kind, name)] == Halves(r, ino, kind, name);
    hide Needed, Halves;
    assert forall i :: 0 <= i < |b| && (i < o || i >= o + r.len) ==> c[i] == b[i];
    Replace(b, c, o, o + r.len, before, Halves(r, ino, kind, name), after);
  }

  /** ext2_remove_dir_entry on one block: the previous record `q` swallows `r`. */
  lemma MergeInBlock(b: seq<byte>, o: nat, before: seq<Rec>, q: Rec, r: Rec, after: seq<Rec>, c: seq<byte>)
    requires |b| < 0x1_0000 && Reads(b, 0, o, before) && IsAt(b, o, q) && RecOk(q) && o + q.len + r.len <= |b|
      && Reads(b, o + q.len + r.len, |b|, after)
    requires c == PutField(b, o + 4, 2, q.len + r.len)
    ensures Reads(c, 0, |b|, before + [q.(len := q.len + r.len)] + after)
  {
    var len := q.len + r.len;
    Relength(b, o, q, len);
    NeededHolds(|q.name|);
    assert RecOk(q.(len := len));
    hide Reads, IsAt;
    OneReads(c, o, q.(len := len));
    Replace(b, c, o, o + len, before, [q.(len := len)], after);
  }

  /** ext2_remove_dir_entry of the first record: it is marked dead. */
  lemma KillFirst(b: seq<byte>, r: Rec, after: seq<Rec>, c: seq<byte>)
    requires IsAt(b, 0, r) && RecOk(r) && r.len <= |b| && Reads(b, r.len, |b|, after)
    requires c == PutField(b, 0, 4, 0)
    ensures Reads(c, 0, |b|, [r.(ino := 0)] + after)
  {
    NeededHolds(|r.name|);
    assert IsAt(c, 0, r.(ino := 0)) by {
      FieldOfPut(b, 0, 4, 0, 0, 4);
      FieldOfPut(b, 0, 4, 0, 4, 2);
      assert c[8..8 + |r.name|] == b[8..8 + |r.name|];
    }
    assert RecOk(r.(ino := 0));
    assert Reads(b, 0, 0, []);
    hide Reads, IsAt;
    OneReads(c, 0, r.(ino := 0));
    Replace(b, c, 0, r.len, [], [r.(ino := 0)], after);
    assert [] + [r.(ino := 0)] + after == [r.(ino := 0)] + after;
  }

  /** A block with one entry that spans it. */
  lemma FreshBlock(n: nat, ino: nat, kind: byte, name: Name, c: seq<byte>)
    requires 267 <= n < 0x1_0000 && |name| < 256 && ino < 0x1_0000_0000
    requires c == Splice(Zeros(n), 0, Entry(ino, n, kind, name))
    ensures Reads(c, 0, n, [Rec(ino, n, kind, name)])
  {
    assert c[0..0 + 8 + |name|] == Entry(ino, n, kind, name);
    EntryIs(c, 0, ino, n, kind, name);
    NeededHolds(|name|);
    OneReads(c, 0, Rec(ino, n, kind, name));
  }
}
