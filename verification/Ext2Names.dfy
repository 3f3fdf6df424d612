/** The names in a directory, as a finite map, and the searches over the records of one block. */
module Ext2Names {
  import opened Bytes
  import opened Ext2Records

  /** A live entry. */
  datatype Pair = Pair(name: Name, ino: nat)

  /** The live entries of a list of records, in order. */
  function Pairs(rs: seq<Rec>): seq<Pair> {
    if rs == [] then [] else Pairs(rs[..|rs| - 1]) + Own(rs[|rs| - 1])
  }

  function Own(r: Rec): seq<Pair> { if r.ino == 0 then [] else [Pair(r.name, r.ino)] }

  lemma {:induction false} PairsConcat(r: seq<Rec>, s: seq<Rec>)
    ensures Pairs(r + s) == Pairs(r) + Pairs(s)
  {
    hide Own;
    if s == [] {
      assert r + s == r;
    } else {
      var n := |s| - 1;
      PairsConcat(r, s[..n]);
      var t := r + s;
      assert t[..|t| - 1] == r + s[..n] && t[|t| - 1] == s[n];
    }
  }

  lemma PairsOne(r: Rec)
    ensures Pairs([r]) == Own(r)
  {
    assert [r][..0] == [];
  }

  /** The directory as a map from names to inodes. */
  function Names(ps: seq<Pair>): map<Name, nat> {
    if ps == [] then map[] else Names(ps[..|ps| - 1])[ps[|ps| - 1].name := ps[|ps| - 1].ino]
  }

  /** No name occurs twice. */
  predicate Distinct(ps: seq<Pair>) {
    ps == [] || (Distinct(ps[..|ps| - 1]) && ps[|ps| - 1].name !in Names(ps[..|ps| - 1]))
  }

  lemma Last(ps: seq<Pair>, p: Pair)
    ensures Names(ps + [p]) == Names(ps)[p.name := p.ino]
    ensures Distinct(ps + [p]) <==> Distinct(ps) && p.name !in Names(ps)
  {
    assert (ps + [p])[..|ps + [p]| - 1] == ps;
  }

  /** Adding an entry anywhere adds its name. */
  lemma {:induction false} Inserted(a: seq<Pair>, b: seq<Pair>, p: Pair)
    requires Distinct(a + b) && p.name !in Names(a + b)
    ensures Distinct(a + [p] + b) && Names(a + [p] + b) == Names(a + b)[p.name := p.ino]
  {
    hide Names, Distinct;
    if b == [] {
      assert a + [p] + b == a + [p] && a + b == a;
      Last(a, p);
    } else {
      var q, c := b[|b| - 1], b[..|b| - 1];
      assert a + b == (a + c) + [q] && a + [p] + b == (a + [p] + c) + [q];
      Last(a + c, q);
      Last(a + [p] + c, q);
      Inserted(a, c, p);
    }
  }

  /** Taking an entry out takes its name out. */
  lemma {:induction false} Removed(a: seq<Pair>, b: seq<Pair>, p: Pair)
    requires Distinct(a + [p] + b)
    ensures Distinct(a + b) && p.name in Names(a + [p] + b) && Names(a + [p] + b)[p.name] == p.ino
    ensures Names(a + b) == Names(a + [p] + b) - {p.name}
  {
    hide Names, Distinct;
    if b == [] {
      assert a + [p] + b == a + [p] && a + b == a;
      Last(a, p);
    } else {
      var q, c := b[|b| - 1], b[..|b| - 1];
      assert a + b == (a + c) + [q] && a + [p] + b == (a + [p] + c) + [q];
      Last(a + c, q);
      Last(a + [p] + c, q);
      Removed(a, c, p);
    }
  }

  /** A name no live record bears is not in the map. */
  lemma {:induction false} Unnamed(rs: seq<Rec>, name: Name)
    requires forall i :: 0 <= i < |rs| ==> !Matches(rs[i], name)
    ensures name !in Names(Pairs(rs))
  {
    hide Names;
    if rs == [] {
      assert Names([]) == map[] by { EmptyNames(); }
    } else {
      var s, r := rs[..|rs| - 1], rs[|rs| - 1];
      Unnamed(s, name);
      if r.ino == 0 {
        assert Pairs(rs) == Pairs(s);
      } else {
        Last(Pairs(s), Pair(r.name, r.ino));
      }
    }
  }

  /** Entries of the map are live. */
  lemma {:induction false} NamesLive(rs: seq<Rec>, name: Name)
    requires name in Names(Pairs(rs))
    ensures Names(Pairs(rs))[name] != 0
  {
    hide Names;
    if rs == [] {
      EmptyNames();
    } else {
      var s, r := rs[..|rs| - 1], rs[|rs| - 1];
      if r.ino != 0 {
        Last(Pairs(s), Pair(r.name, r.ino));
      } else {
        assert Pairs(rs) == Pairs(s);
      }
      if name in Names(Pairs(s)) {
        NamesLive(s, name);
      }
    }
  }

  lemma EmptyNames()
    ensures Names([]) == map[]
  {
  }

  // ----- searches in one block -----

  /** A live record with this name. */
  predicate Matches(r: Rec, name: Name) { r.ino != 0 && r.name == name }

  /** The record at `o` is live and has this name: length first, then the bytes. */
  predicate MatchesAt(b: seq<byte>, o: nat, name: Name) {
    o + 8 <= |b| && Field(b, o, 4) != 0 && b[o + 6] == |name| && o + 8 + |name| <= |b|
    && b[o + 8..o + 8 + |name|] == name
  }

  lemma MatchesIs(b: seq<byte>, o: nat, r: Rec, name: Name)
    requires IsAt(b, o, r)
    ensures MatchesAt(b, o, name) == Matches(r, name)
  {
  }

  function LenAt(b: seq<byte>, o: nat): nat { if o + 8 <= |b| then Field(b, o + 4, 2) else 0 }

  function NameLenAt(b: seq<byte>, o: nat): nat { if o + 8 <= |b| then b[o + 6] else 0 }

  lemma LenIs(b: seq<byte>, o: nat, r: Rec)
    requires IsAt(b, o, r)
    ensures LenAt(b, o) == r.len && NameLenAt(b, o) == |r.name|
  {
  }

  /** The byte offset after the first `k` records. */
  ghost predicate SplitsAt(b: seq<byte>, rs: seq<Rec>, k: nat, o: nat) {
    k <= |rs| && Reads(b, 0, o, rs[..k]) && Reads(b, o, |b|, rs[k..])
  }

  lemma SplitsStart(b: seq<byte>, rs: seq<Rec>)
    requires Reads(b, 0, |b|, rs)
    ensures SplitsAt(b, rs, 0, 0)
  {
    assert rs[..0] == [] && rs[0..] == rs;
  }

  lemma SplitsNext(b: seq<byte>, rs: seq<Rec>, k: nat, o: nat)
    requires SplitsAt(b, rs, k, o) && o < |b|
    ensures k < |rs| && IsAt(b, o, rs[k]) && RecOk(rs[k]) && 8 <= rs[k].len && o + rs[k].len <= |b|
    ensures SplitsAt(b, rs, k + 1, o + rs[k].len)
  {
    hide IsAt;
    assert rs[k..] != [];
    var r := rs[k];
    ReadsLonger(b, o, |b|, rs[k..]);
    assert rs[k..][0] == r && rs[k..][1..] == rs[k + 1..];
    OneReads(b, o, r);
    ReadsJoin(b, 0, o, o + r.len, rs[..k], [r]);
    assert rs[..k] + [r] == rs[..k + 1];
  }

  lemma SplitsEnd(b: seq<byte>, rs: seq<Rec>, k: nat)
    requires SplitsAt(b, rs, k, |b|)
    ensures k == |rs|
  {
    if k < |rs| {
      ReadsLonger(b, |b|, |b|, rs[k..]);
    }
  }

  /** The inner loop of ext2_lookup and ext2_remove_dir_entry: a matching record and the one before it. */
  method FindName(b: seq<byte>, name: Name, ghost rs: seq<Rec>) returns (o: nat, prev: nat, hasPrev: bool, ghost k: nat)
    requires Reads(b, 0, |b|, rs)
    ensures o <= |b| && SplitsAt(b, rs, k, o) && hasPrev == (k > 0)
    ensures hasPrev ==> SplitsAt(b, rs, k - 1, prev) && prev < o
    ensures forall i :: 0 <= i < k ==> !Matches(rs[i], name)
    ensures if o < |b| then k < |rs| && IsAt(b, o, rs[k]) && Matches(rs[k], name) else k == |rs|
  {
    hide Reads, IsAt, MatchesAt, LenAt, SplitsAt, Matches;
    SplitsStart(b, rs);
    o, prev, hasPrev, k := 0, 0, false, 0;
    while o < |b|
      invariant o <= |b| && k <= |rs| && SplitsAt(b, rs, k, o) && hasPrev == (k > 0)
      invariant hasPrev ==> SplitsAt(b, rs, k - 1, prev) && prev < o
      invariant forall i :: 0 <= i < k ==> !Matches(rs[i], name)
    {
      SplitsNext(b, rs, k, o);
      MatchesIs(b, o, rs[k], name);
      LenIs(b, o, rs[k]);
      if MatchesAt(b, o, name) {
        return;
      }
      prev, hasPrev := o, true;
      o := o + LenAt(b, o);
      k := k + 1;
    }
    SplitsEnd(b, rs, k);
  }

  /** The record has room for another entry with a name of `n` bytes. */
  predicate Roomy(r: Rec, n: nat) { r.len >= Needed(|r.name|) + Needed(n) }

  /** The inner loop of ext2_add_dir_entry: a record with room to spare. */
  method FindRoom(b: seq<byte>, n: nat, ghost rs: seq<Rec>) returns (o: nat, ghost k: nat)
    requires Reads(b, 0, |b|, rs)
    ensures o <= |b| && SplitsAt(b, rs, k, o)
    ensures forall i :: 0 <= i < k ==> !Roomy(rs[i], n)
    ensures if o < |b| then k < |rs| && IsAt(b, o, rs[k]) && RecOk(rs[k]) && Roomy(rs[k], n) else k == |rs|
  {
    hide Reads, IsAt, LenAt, SplitsAt, NameLenAt, Needed;
    SplitsStart(b, rs);
    o, k := 0, 0;
    while o < |b|
      invariant o <= |b| && k <= |rs| && SplitsAt(b, rs, k, o)
      invariant forall i :: 0 <= i < k ==> !Roomy(rs[i], n)
    {
      SplitsNext(b, rs, k, o);
      LenIs(b, o, rs[k]);
      var space := LenAt(b, o) - Needed(NameLenAt(b, o));
      if space >= Needed(n) {
        return;
      }
      o := o + LenAt(b, o);
      k := k + 1;
    }
    SplitsEnd(b, rs, k);
  }
}
