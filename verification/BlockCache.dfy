/**
 The block cache (kernel/drivers/blockcache.c): a fixed table of entries, hash
 chains threaded through them, least-recently-used eviction with write-back.

 The disk is a map from block numbers to contents; reading a block that is not
 there fails.  Writes to the blocks in `bad` fail, and the code ignores that.
 */
module BlockCache {

  const BUCKETS: nat := 64
  const NEVER: nat := 0xFFFF_FFFF   // the initial best_tick

  type Data = seq<int>

  /** struct bcache_entry; `hasData` is false when kmalloc gave no buffer, `next` is -1 at the end of a chain. */
  datatype Entry = Entry(blockNo: nat, data: Data, hasData: bool, dirty: bool, valid: bool, refcount: nat, tick: nat,
                         next: int)

  type Disk = map<nat, Data>

  function Hash(blockNo: nat): nat { blockNo % BUCKETS }

  // ----- chains -----

  function At(c: seq<nat>, k: nat): int { if k < |c| then c[k] else -1 }

  ghost predicate Chain(cs: seq<Entry>, head: int, c: seq<nat>) {
    head == At(c, 0) && forall k :: 0 <= k < |c| ==> c[k] < |cs| && cs[c[k]].next == At(c, k + 1)
  }

  ghost predicate Distinct(c: seq<nat>) { forall j, k :: 0 <= j < k < |c| ==> c[j] != c[k] }

  /** The chain of bucket `h` holds exactly the valid entries that hash to it, once each. */
  ghost predicate BucketOk(cs: seq<Entry>, head: int, c: seq<nat>, h: nat) {
    && Chain(cs, head, c) && Distinct(c)
    && forall i :: 0 <= i < |cs| ==> (i in c <==> cs[i].valid && Hash(cs[i].blockNo) == h)
  }

  ghost predicate BucketsOk(cs: seq<Entry>, ht: seq<int>, chains: seq<seq<nat>>) {
    |ht| == |chains| == BUCKETS && forall h :: 0 <= h < BUCKETS ==> BucketOk(cs, ht[h], chains[h], h)
  }

  /** `index` says where each cached block is: no block is cached twice, and clean entries agree with a working disk. */
  ghost predicate IndexOk(cs: seq<Entry>, index: map<nat, nat>, disk: Disk, bad: set<nat>) {
    && (forall b :: b in index ==> index[b] < |cs| && cs[index[b]].valid && cs[index[b]].blockNo == b)
    && (forall i :: 0 <= i < |cs| && cs[i].valid ==>
          cs[i].hasData && cs[i].blockNo in disk && cs[i].blockNo in index && index[cs[i].blockNo] == i)
    && (forall i :: 0 <= i < |cs| && cs[i].valid && !cs[i].dirty && cs[i].blockNo !in bad ==>
          disk[cs[i].blockNo] == cs[i].data)
  }

  /** The blocks as a client sees them. */
  ghost function View(cs: seq<Entry>, index: map<nat, nat>, disk: Disk): Disk {
    map b | b in disk :: if b in index && index[b] < |cs| then cs[index[b]].data else disk[b]
  }

  lemma ViewKeys(cs: seq<Entry>, index: map<nat, nat>, disk: Disk)
    ensures View(cs, index, disk).Keys == disk.Keys
  {
  }

  lemma SeenAt(cs: seq<Entry>, index: map<nat, nat>, disk: Disk, bad: set<nat>, b: nat)
    requires IndexOk(cs, index, disk, bad) && b in disk
    ensures b in View(cs, index, disk)
    ensures b in index ==> index[b] < |cs| && View(cs, index, disk)[b] == cs[index[b]].data
    ensures b !in index ==> View(cs, index, disk)[b] == disk[b]
  {
  }

  // ----- the entry e leaves its chain -----

  function Drop(c: seq<nat>, k: nat): seq<nat>
    requires k < |c|
  {
    c[..k] + c[k + 1..]
  }

  /** The entries after bcache_hash_remove took the k-th entry out of chain `c`; that entry itself may be anything. */
  ghost predicate Removed(cs: seq<Entry>, cs': seq<Entry>, c: seq<nat>, k: nat) {
    && |cs'| == |cs| && k < |c|
    && forall i :: 0 <= i < |cs| && i != c[k] ==>
      cs'[i] == if k > 0 && i == c[k - 1] then cs[i].(next := At(c, k + 1)) else cs[i]
  }

  lemma DropElements(c: seq<nat>, k: nat)
    requires Distinct(c) && k < |c|
    ensures forall j :: 0 <= j < |Drop(c, k)| ==> Drop(c, k)[j] == c[if j < k then j else j + 1]
    ensures Distinct(Drop(c, k))
    ensures forall i: nat :: i in Drop(c, k) <==> i in c && i != c[k]
  {
    var d := Drop(c, k);
    forall i: nat | i in c && i != c[k] ensures i in d {
      var j :| 0 <= j < |c| && c[j] == i;
      assert d[if j < k then j else j - 1] == i;
    }
  }

  /** The link of the m-th entry of a chain the k-th was taken out of. */
  lemma RemovedLink(cs: seq<Entry>, cs': seq<Entry>, head: int, c: seq<nat>, k: nat, m: nat)
    requires Chain(cs, head, c) && Distinct(c) && Removed(cs, cs', c, k) && m < |c| && m != k
    ensures c[m] < |cs'| && cs'[c[m]].next == if m + 1 == k then At(c, k + 1) else At(c, m + 1)
  {
    assert c[m] != c[k];
    assert k > 0 && m != k - 1 ==> c[m] != c[k - 1];
  }

  lemma RemovedChain(cs: seq<Entry>, cs': seq<Entry>, head: int, c: seq<nat>, k: nat)
    requires Chain(cs, head, c) && Distinct(c) && Removed(cs, cs', c, k)
    ensures Chain(cs', if k == 0 then At(c, 1) else head, Drop(c, k))
  {
    var d := Drop(c, k);
    forall j | 0 <= j < |d| ensures d[j] < |cs'| && cs'[d[j]].next == At(d, j + 1) {
      DroppedLink(cs, cs', head, c, k, j);
    }
    hide Removed, Distinct;
  }

  lemma DroppedLink(cs: seq<Entry>, cs': seq<Entry>, head: int, c: seq<nat>, k: nat, j: nat)
    requires Chain(cs, head, c) && Distinct(c) && Removed(cs, cs', c, k) && k < |c| && j < |Drop(c, k)|
    ensures Drop(c, k)[j] < |cs'| && cs'[Drop(c, k)[j]].next == At(Drop(c, k), j + 1)
  {
    hide Removed, Distinct, Chain;
    RemovedLink(cs, cs', head, c, k, if j < k then j else j + 1);
  }

  /** An entry that is not part of a chain may change; an entry that is may change anything but its link. */
  lemma ChainFrame(cs: seq<Entry>, cs': seq<Entry>, head: int, c: seq<nat>)
    requires Chain(cs, head, c) && |cs'| == |cs| && forall k :: 0 <= k < |c| ==> cs'[c[k]].next == cs[c[k]].next
    ensures Chain(cs', head, c)
  {
  }

  lemma RemovedBucket(cs: seq<Entry>, cs': seq<Entry>, head: int, c: seq<nat>, k: nat, h: nat)
    requires BucketOk(cs, head, c, h) && Removed(cs, cs', c, k) && !cs'[c[k]].valid
    ensures BucketOk(cs', if k == 0 then At(c, 1) else head, Drop(c, k), h)
  {
    RemovedChain(cs, cs', head, c, k);
    hide Chain;
    DropElements(c, k);
    hide Distinct, Drop;
  }

  lemma OtherBucket(cs: seq<Entry>, cs': seq<Entry>, c: seq<nat>, k: nat, h: nat, head: int, hc: int, d: seq<nat>,
                    g: nat)
    requires BucketOk(cs, hc, c, h) && BucketOk(cs, head, d, g) && g != h && Removed(cs, cs', c, k) && !cs'[c[k]].valid
    ensures BucketOk(cs', head, d, g)
  {
    forall m | 0 <= m < |d| ensures cs'[d[m]].next == cs[d[m]].next {
      assert d[m] in d;
      assert d[m] !in c;
    }
    ChainFrame(cs, cs', head, d);
    hide Chain;
    assert c[k] in c;
  }

  /** Taking an entry out of its chain and clearing its valid flag keeps every bucket right. */
  lemma RemovedBuckets(cs: seq<Entry>, ht: seq<int>, chains: seq<seq<nat>>, h: nat, k: nat, cs': seq<Entry>,
                       ht': seq<int>, chains': seq<seq<nat>>)
    requires BucketsOk(cs, ht, chains) && h < BUCKETS && Removed(cs, cs', chains[h], k) && chains[h][k] < |cs'|
      && !cs'[chains[h][k]].valid
    requires ht' == ht[h := if k == 0 then At(chains[h], 1) else ht[h]]
    requires chains' == chains[h := Drop(chains[h], k)]
    ensures BucketsOk(cs', ht', chains')
  {
    hide Removed, Drop;
    assert BucketOk(cs, ht[h], chains[h], h);
    forall g | 0 <= g < BUCKETS ensures BucketOk(cs', ht'[g], chains'[g], g) {
      assert BucketOk(cs, ht[g], chains[g], g);
      hide BucketOk;
      if g == h {
        RemovedBucket(cs, cs', ht[h], chains[h], k, h);
      } else {
        OtherBucket(cs, cs', chains[h], k, h, ht[g], ht[h], chains[g], g);
      }
    }
  }

  /** A fresh valid entry is put at the front of its chain. */
  lemma InsertedBuckets(cs: seq<Entry>, ht: seq<int>, chains: seq<seq<nat>>, e: nat, cs': seq<Entry>)
    requires BucketsOk(cs, ht, chains) && e < |cs| && !cs[e].valid
    requires |cs'| == |cs| && cs'[e].valid && cs'[e].next == ht[Hash(cs'[e].blockNo)]
    requires forall i :: 0 <= i < |cs| && i != e ==> cs'[i] == cs[i]
    ensures var h := Hash(cs'[e].blockNo); BucketsOk(cs', ht[h := e], chains[h := [e] + chains[h]])
  {
    var h := Hash(cs'[e].blockNo);
    var ht', chains' := ht[h := e], chains[h := [e] + chains[h]];
    forall g | 0 <= g < BUCKETS ensures BucketOk(cs', ht'[g], chains'[g], g) {
      assert BucketOk(cs, ht[g], chains[g], g);
      assert e !in chains[g];
      ChainFrame(cs, cs', ht[g], chains[g]);
      if g == h {
        InsertedBucket(cs', ht[h], chains[h], e, h);
      }
    }
  }

  lemma InsertedBucket(cs: seq<Entry>, head: int, c: seq<nat>, e: nat, h: nat)
    requires Chain(cs, head, c) && Distinct(c) && e < |cs| && e !in c && cs[e].next == head && cs[e].valid
      && Hash(cs[e].blockNo) == h
    requires forall i :: 0 <= i < |cs| && i != e ==> (i in c <==> cs[i].valid && Hash(cs[i].blockNo) == h)
    ensures BucketOk(cs, e, [e] + c, h)
  {
    hide Hash;
    var d := [e] + c;
    forall k | 0 <= k < |d| ensures d[k] < |cs| && cs[d[k]].next == At(d, k + 1) {
      if k > 0 {
        assert d[k] == c[k - 1];
      }
    }
  }

  /** Changes that touch neither links nor identity keep every bucket right. */
  lemma SameBuckets(cs: seq<Entry>, ht: seq<int>, chains: seq<seq<nat>>, cs': seq<Entry>)
    requires BucketsOk(cs, ht, chains) && |cs'| == |cs|
    requires forall i :: 0 <= i < |cs| ==>
      cs'[i].next == cs[i].next && cs'[i].valid == cs[i].valid && (cs[i].valid ==> cs'[i].blockNo == cs[i].blockNo)
    ensures BucketsOk(cs', ht, chains)
  {
    forall h | 0 <= h < BUCKETS ensures BucketOk(cs', ht[h], chains[h], h) {
      assert BucketOk(cs, ht[h], chains[h], h);
      ChainFrame(cs, cs', ht[h], chains[h]);
    }
  }

  // ----- which entry gives way -----

  predicate Unpinned(e: Entry) { e.hasData && e.valid && e.refcount == 0 && e.tick < NEVER }

  /**
   * `best` is the least recently used of the first `n` unpinned (and, if asked for, clean)
   * entries, the first of several; -1 if there is none.
   */
  ghost predicate IsOldest(cs: seq<Entry>, n: nat, best: int, cleanOnly: bool) {
    && (best == -1 ==> forall i :: 0 <= i < n && i < |cs| ==> !(Unpinned(cs[i]) && (cleanOnly ==> !cs[i].dirty)))
    && (best != -1 ==> 0 <= best < n && best < |cs| && Unpinned(cs[best]) && (cleanOnly ==> !cs[best].dirty))
    && (best != -1 && 0 <= best < |cs| ==>
          forall i :: 0 <= i < n && i < |cs| && Unpinned(cs[i]) && (cleanOnly ==> !cs[i].dirty) ==>
            cs[best].tick < cs[i].tick || (cs[best].tick == cs[i].tick && best <= i))
  }

  /** A buffer that caches nothing. */
  predicate Spare(e: Entry) { e.hasData && !e.valid }

  ghost predicate FirstSpare(cs: seq<Entry>, e: int) {
    0 <= e < |cs| && Spare(cs[e]) && forall i :: 0 <= i < e ==> !Spare(cs[i])
  }

  /**
   * What the policy picks: the first spare buffer, else the oldest clean unpinned entry, else
   * the oldest unpinned one, else nothing.
   */
  ghost predicate Chosen(cs: seq<Entry>, e: int) {
    if exists i :: 0 <= i < |cs| && Spare(cs[i]) then FirstSpare(cs, e)
    else if IsOldest(cs, |cs|, -1, true) then IsOldest(cs, |cs|, e, false)
    else IsOldest(cs, |cs|, e, true)
  }

  lemma ChosenOnce(cs: seq<Entry>, e: int, e': int)
    requires Chosen(cs, e) && Chosen(cs, e')
    ensures e == e'
  {
  }

  /** Nothing is picked exactly if no buffer is spare and no entry unpinned. */
  lemma NoneChosen(cs: seq<Entry>, e: int)
    requires Chosen(cs, e)
    ensures e == -1 <==> AllPinned(cs)
    ensures e != -1 ==> 0 <= e < |cs| && cs[e].hasData && (cs[e].valid ==> Unpinned(cs[e]))
  {
  }

  /** Every entry but `e` is as it was, or out of use. */
  ghost predicate OthersKept(cs: seq<Entry>, cs': seq<Entry>, e: int) {
    |cs'| == |cs| && forall i :: 0 <= i < |cs| ==>
      cs'[i].hasData == cs[i].hasData && (i != e ==> cs'[i].(next := 0) == cs[i].(next := 0) || !cs'[i].valid)
  }

  /** Every entry that has a buffer is in use and cannot be given up. */
  ghost predicate AllPinned(cs: seq<Entry>) {
    forall i :: 0 <= i < |cs| && cs[i].hasData ==> cs[i].valid && !Unpinned(cs[i])
  }

  /** The block's only copy of its contents is in the cache, and writing it back would fail. */
  predicate Doomed(e: Entry, disk: Disk, bad: set<nat>) {
    e.valid && e.blockNo in bad && e.blockNo in disk && disk[e.blockNo] != e.data
  }

  /** Giving up the entry the policy picks loses block `x`: its write-back fails, and the code does not look. */
  ghost predicate Loses(cs: seq<Entry>, disk: Disk, bad: set<nat>, x: nat) {
    exists e :: Chosen(cs, e) && 0 <= e < |cs| && Doomed(cs[e], disk, bad) && cs[e].blockNo == x
  }

  /** The contents of exactly the lost blocks changed. */
  ghost predicate OnlyLost(cs: seq<Entry>, disk: Disk, bad: set<nat>, before: Disk, after: Disk) {
    after.Keys == before.Keys && forall x :: x in before ==> (after[x] == before[x] <==> !Loses(cs, disk, bad, x))
  }

  lemma NoneLost(cs: seq<Entry>, disk: Disk, bad: set<nat>, e: int, blocks: Disk)
    requires Chosen(cs, e) && (0 <= e < |cs| ==> !Doomed(cs[e], disk, bad))
    ensures OnlyLost(cs, disk, bad, blocks, blocks)
  {
    hide Chosen, Doomed;
    forall x | Loses(cs, disk, bad, x) ensures false {
      var v :| Chosen(cs, v) && 0 <= v < |cs| && Doomed(cs[v], disk, bad) && cs[v].blockNo == x;
      ChosenOnce(cs, e, v);
    }
  }

  lemma OneLost(cs: seq<Entry>, disk: Disk, bad: set<nat>, e: nat, before: Disk, after: Disk)
    requires Chosen(cs, e) && e < |cs| && cs[e].blockNo in before && after.Keys == before.Keys
    requires after == before[cs[e].blockNo := after[cs[e].blockNo]]
    requires after[cs[e].blockNo] == before[cs[e].blockNo] <==> !Doomed(cs[e], disk, bad)
    ensures OnlyLost(cs, disk, bad, before, after)
  {
    hide Chosen, Doomed;
    forall x | x in before ensures after[x] == before[x] <==> !Loses(cs, disk, bad, x) {
      if Loses(cs, disk, bad, x) {
        var v :| Chosen(cs, v) && 0 <= v < |cs| && Doomed(cs[v], disk, bad) && cs[v].blockNo == x;
        ChosenOnce(cs, e, v);
      }
    }
  }

  /** Entry `e` is dropped, everything else kept, and the disk gets what write-back can give it. */
  ghost predicate Gives(cs: seq<Entry>, disk: Disk, bad: set<nat>, e: nat, cs': seq<Entry>, disk': Disk) {
    && e < |cs| == |cs'| && cs[e].valid && !cs'[e].valid
    && (forall i :: 0 <= i < |cs| && i != e ==> cs'[i].(next := 0) == cs[i].(next := 0))
    && disk' == if cs[e].dirty && cs[e].blockNo !in bad then disk[cs[e].blockNo := cs[e].data] else disk
  }

  /** What a client sees when entry `e` went: the same, but for the block of an entry that could not be written back. */
  ghost predicate Left(e: Entry, before: Disk, after: Disk, disk: Disk, bad: set<nat>) {
    && e.blockNo in before && after.Keys == before.Keys && after == before[e.blockNo := after[e.blockNo]]
    && (after[e.blockNo] == before[e.blockNo] <==> !Doomed(e, disk, bad))
  }

  lemma GaveUp(cs: seq<Entry>, index: map<nat, nat>, disk: Disk, bad: set<nat>, e: nat, cs': seq<Entry>, disk': Disk)
    requires IndexOk(cs, index, disk, bad) && Gives(cs, disk, bad, e, cs', disk')
    ensures IndexOk(cs', index - {cs[e].blockNo}, disk', bad) && disk'.Keys == disk.Keys
    ensures Left(cs[e], View(cs, index, disk), View(cs', index - {cs[e].blockNo}, disk'), disk, bad)
  {
    GaveUpView(cs, index, disk, bad, e, cs', disk');
    var index' := index - {cs[e].blockNo};
    forall i | 0 <= i < |cs'| && cs'[i].valid ensures EntryOk(cs', index', disk', bad, i) {
      GaveUpEntry(cs, index, disk, bad, e, cs', disk', i);
    }
    forall b | b in index' ensures index'[b] < |cs'| && cs'[index'[b]].valid && cs'[index'[b]].blockNo == b {
      GaveUpBlock(cs, index, disk, bad, e, cs', disk', b);
    }
    assert disk'.Keys == disk.Keys;
    hide View, Doomed, Left, Gives;
  }

  /** What IndexOk says of one entry. */
  predicate EntryOk(cs: seq<Entry>, index: map<nat, nat>, disk: Disk, bad: set<nat>, i: nat) {
    && i < |cs| && cs[i].hasData && cs[i].blockNo in disk && cs[i].blockNo in index && index[cs[i].blockNo] == i
    && (!cs[i].dirty && cs[i].blockNo !in bad ==> disk[cs[i].blockNo] == cs[i].data)
  }

  lemma GaveUpEntry(cs: seq<Entry>, index: map<nat, nat>, disk: Disk, bad: set<nat>, e: nat, cs': seq<Entry>,
                    disk': Disk, i: nat)
    requires IndexOk(cs, index, disk, bad) && Gives(cs, disk, bad, e, cs', disk') && i < |cs'| && cs'[i].valid
    ensures EntryOk(cs', index - {cs[e].blockNo}, disk', bad, i)
  {
    assert i != e && cs'[i].(next := 0) == cs[i].(next := 0);
  }

  lemma GaveUpBlock(cs: seq<Entry>, index: map<nat, nat>, disk: Disk, bad: set<nat>, e: nat, cs': seq<Entry>,
                    disk': Disk, b: nat)
    requires IndexOk(cs, index, disk, bad) && Gives(cs, disk, bad, e, cs', disk') && b in index && b != cs[e].blockNo
    ensures index[b] < |cs'| && cs'[index[b]].valid && cs'[index[b]].blockNo == b
  {
    assert index[b] != e && cs'[index[b]].(next := 0) == cs[index[b]].(next := 0);
  }

  lemma GaveUpView(cs: seq<Entry>, index: map<nat, nat>, disk: Disk, bad: set<nat>, e: nat, cs': seq<Entry>,
                   disk': Disk)
    requires IndexOk(cs, index, disk, bad) && Gives(cs, disk, bad, e, cs', disk')
    ensures Left(cs[e], View(cs, index, disk), View(cs', index - {cs[e].blockNo}, disk'), disk, bad)
  {
    hide IndexOk, View, Gives, Doomed;
    GaveUpHere(cs, index, disk, bad, e, cs', disk');
    var b := cs[e].blockNo;
    ViewKeys(cs, index, disk);
    ViewKeys(cs', index - {b}, disk');
    var v, v' := View(cs, index, disk), View(cs', index - {b}, disk');
    forall x | x in disk && x != b ensures v'[x] == v[x] {
      GaveUpElsewhere(cs, index, disk, bad, e, cs', disk', x);
    }
    assert v' == v[b := v'[b]];
  }

  lemma GaveUpHere(cs: seq<Entry>, index: map<nat, nat>, disk: Disk, bad: set<nat>, e: nat, cs': seq<Entry>,
                   disk': Disk)
    requires IndexOk(cs, index, disk, bad) && Gives(cs, disk, bad, e, cs', disk')
    ensures e < |cs| && disk'.Keys == disk.Keys && cs[e].blockNo in disk
    ensures View(cs', index - {cs[e].blockNo}, disk')[cs[e].blockNo] == View(cs, index, disk)[cs[e].blockNo] <==>
      !Doomed(cs[e], disk, bad)
  {
    SeenAt(cs, index, disk, bad, cs[e].blockNo);
  }

  lemma GaveUpElsewhere(cs: seq<Entry>, index: map<nat, nat>, disk: Disk, bad: set<nat>, e: nat, cs': seq<Entry>,
                        disk': Disk, x: nat)
    requires IndexOk(cs, index, disk, bad) && Gives(cs, disk, bad, e, cs', disk') && x in disk && x != cs[e].blockNo
    ensures x in disk' && View(cs', index - {cs[e].blockNo}, disk')[x] == View(cs, index, disk)[x]
  {
    if x in index {
      assert index[x] != e && cs'[index[x]].(next := 0) == cs[index[x]].(next := 0);
    }
  }

  /** An entry that was out of use now caches block `b` as it is on disk. */
  ghost predicate TakesIn(cs: seq<Entry>, index: map<nat, nat>, disk: Disk, e: nat, b: nat, cs': seq<Entry>) {
    && e < |cs| == |cs'| && !cs[e].valid && b in disk && b !in index
    && cs'[e].valid && cs'[e].hasData && cs'[e].blockNo == b && cs'[e].data == disk[b] && !cs'[e].dirty
    && forall i :: 0 <= i < |cs| && i != e ==> cs'[i] == cs[i]
  }

  lemma TookIn(cs: seq<Entry>, index: map<nat, nat>, disk: Disk, bad: set<nat>, e: nat, b: nat, cs': seq<Entry>)
    requires IndexOk(cs, index, disk, bad) && TakesIn(cs, index, disk, e, b, cs')
    ensures IndexOk(cs', index[b := e], disk, bad) && View(cs', index[b := e], disk) == View(cs, index, disk)
  {
    TookInView(cs, index, disk, bad, e, b, cs');
    hide View;
    forall i | 0 <= i < |cs'| && cs'[i].valid
      ensures cs'[i].hasData && cs'[i].blockNo in disk && cs'[i].blockNo in index[b := e]
        && index[b := e][cs'[i].blockNo] == i
    {
      assert i != e ==> cs'[i] == cs[i];
    }
  }

  lemma TookInView(cs: seq<Entry>, index: map<nat, nat>, disk: Disk, bad: set<nat>, e: nat, b: nat, cs': seq<Entry>)
    requires IndexOk(cs, index, disk, bad) && TakesIn(cs, index, disk, e, b, cs')
    ensures View(cs', index[b := e], disk) == View(cs, index, disk)
  {
    var v, v' := View(cs, index, disk), View(cs', index[b := e], disk);
    forall x | x in disk ensures v'[x] == v[x] {
      if x in index {
        assert index[x] != e && cs'[index[x]] == cs[index[x]];
      }
    }
  }

  /** The entry got has a holder more: it had the block already, or nobody held it. */
  predicate Pinned(was: Entry, got: Entry, b: nat) {
    || (was.valid && was.blockNo == b && got.refcount == was.refcount + 1)
    || (got.refcount == 1 && (was.valid ==> was.refcount == 0))
  }

  /** The entries after a get of block `b`: pinned ones are as they were, the one got has a holder more. */
  ghost predicate Obtained(cs: seq<Entry>, cs': seq<Entry>, e: int, b: nat, now: nat) {
    && OthersKept(cs, cs', e)
    && (forall i :: 0 <= i < |cs| && i != e && cs[i].valid && cs[i].refcount > 0 ==>
          cs'[i].(next := 0) == cs[i].(next := 0))
    && (e != -1 ==>
          0 <= e < |cs| && cs'[e].valid && cs'[e].blockNo == b && cs'[e].tick == now && Pinned(cs[e], cs'[e], b))
  }

  lemma HitObtains(cs: seq<Entry>, cs': seq<Entry>, e: nat, now: nat)
    requires e < |cs| && cs[e].valid && cs' == cs[e := cs[e].(refcount := cs[e].refcount + 1, tick := now)]
    ensures Obtained(cs, cs', e, cs[e].blockNo, now)
  {
  }

  /** Eviction changed `cs` to `cs1`, loading that to `cs'`; when there was nothing to load, nothing is got. */
  lemma MissObtains(cs: seq<Entry>, cs1: seq<Entry>, cs': seq<Entry>, e: nat, b: nat, now: nat, ok: bool)
    requires e < |cs| == |cs1| == |cs'| && cs[e].hasData && cs'[e].hasData && (cs[e].valid ==> cs[e].refcount == 0)
    requires forall i :: 0 <= i < |cs| && i != e ==> cs1[i].(next := 0) == cs[i].(next := 0)
    requires forall i :: 0 <= i < |cs| && i != e ==> cs'[i] == cs1[i]
    requires if ok then cs'[e].valid && cs'[e].blockNo == b && cs'[e].tick == now && cs'[e].refcount == 1
      else !cs'[e].valid
    ensures Obtained(cs, cs', if ok then e else -1, b, now)
  {
    forall i | 0 <= i < |cs| && i != e
      ensures cs'[i].(next := 0) == cs[i].(next := 0) && cs'[i].hasData == cs[i].hasData {
      assert cs1[i].(next := 0) == cs[i].(next := 0);
    }
  }

  /** The disk after an entry was given up: what was dirty is written, unless that fails. */
  function Dropped(en: Entry, disk: Disk, bad: set<nat>): Disk {
    if en.valid && en.dirty && en.blockNo !in bad then disk[en.blockNo := en.data] else disk
  }

  /** An entry after a block was read into it; one that cannot be read leaves it unused. */
  function Fetched(en: Entry, b: nat, now: nat, disk: Disk): Entry {
    en.(blockNo := b, data := if b in disk then disk[b] else en.data, dirty := false, valid := b in disk, refcount := 1,
        tick := now)
  }

  /** Entry `e` has become `x`, and every other is as it was, but for how the chains run. */
  predicate Replaced(cs: seq<Entry>, cs': seq<Entry>, e: nat, x: Entry) {
    e < |cs| == |cs'| && forall i :: 0 <= i < |cs| ==> cs'[i].(next := 0) == (if i == e then x else cs[i]).(next := 0)
  }

  /** What a get that misses does: the entry the policy picks is given up, and the block read into it. */
  ghost predicate Missed(cs: seq<Entry>, cs': seq<Entry>, disk: Disk, disk': Disk, bad: set<nat>, b: nat, now: nat,
                         e: int, v: int)
  {
    && Chosen(cs, v)
    && if v == -1 then e == -1 && cs' == cs && disk' == disk
       else
         && 0 <= v < |cs| && e == (if b in disk then v else -1) && disk' == Dropped(cs[v], disk, bad)
         && Replaced(cs, cs', v, Fetched(cs[v], b, now, disk))
  }

  function Touched(en: Entry, now: nat): Entry { en.(refcount := en.refcount + 1, tick := now) }

  lemma SameFetch(en: Entry, en': Entry, b: nat, now: nat, disk: Disk, disk': Disk)
    requires en.(next := 0, dirty := false) == en'.(next := 0, valid := false, dirty := false)
    requires disk'.Keys == disk.Keys && (b in disk ==> disk'[b] == disk[b])
    ensures Fetched(en, b, now, disk').(next := 0) == Fetched(en', b, now, disk).(next := 0)
  {
  }

  lemma MissIs(cs: seq<Entry>, cs1: seq<Entry>, cs': seq<Entry>, e: nat, x: Entry)
    requires e < |cs| == |cs1| == |cs'| && cs'[e].(next := 0) == x.(next := 0)
    requires forall i :: 0 <= i < |cs| && i != e ==> cs1[i].(next := 0) == cs[i].(next := 0)
    requires forall i :: 0 <= i < |cs| && i != e ==> cs'[i] == cs1[i]
    ensures Replaced(cs, cs', e, x)
  {
  }

  lemma NothingObtained(cs: seq<Entry>, b: nat, now: nat)
    ensures Obtained(cs, cs, -1, b, now)
  {
  }

  class Cache {
    const cache: array<Entry>
    const hashTable: array<int>
    const bad: set<nat>
    var disk: Disk
    ghost var chains: seq<seq<nat>>
    ghost var index: map<nat, nat>

    ghost predicate Valid()
      reads this, cache, hashTable
    {
      Hashed() && IndexOk(cache[..], index, disk, bad)
    }

    ghost predicate Hashed()
      reads this, cache, hashTable
    {
      cache as object != hashTable && hashTable.Length == BUCKETS && BucketsOk(cache[..], hashTable[..], chains)
    }

    /** The plain array of blocks this cache stands for. */
    ghost function Blocks(): Disk
      reads this, cache
    {
      View(cache[..], index, disk)
    }

    /** What a client with the given holds sees, and what lies below. */
    ghost function Now(holds: Leases): Moment
      reads this, cache
    {
      Moment(Blocks(), holds, cache[..], index, disk)
    }

    /** bcache_init on `buffers` entries that got a buffer. */
    constructor (size: nat, buffers: nat, disk: Disk, bad: set<nat>)
      requires buffers <= size
      ensures Valid() && Blocks() == disk && this.disk == disk && this.bad == bad && fresh(cache) && fresh(hashTable)
      ensures index == map[] && cache[..] == seq(size, i => Entry(0, [], i < buffers, false, false, 0, 0, -1))
    {
      cache := new Entry[size](i => Entry(0, [], i < buffers, false, false, 0, 0, -1));
      hashTable := new int[BUCKETS](_ => -1);
      this.disk, this.bad := disk, bad;
      chains, index := seq(BUCKETS, _ => []), map[];
    }

    /** bcache_hash_find. */
    method HashFind(blockNo: nat) returns (e: int)
      requires Valid()
      ensures e == if blockNo in index then index[blockNo] else -1
      ensures e != -1 ==> 0 <= e < cache.Length && cache[e].valid && cache[e].blockNo == blockNo && blockNo in disk
    {
      var h := Hash(blockNo);
      ghost var c := chains[h];
      assert BucketOk(cache[..], hashTable[..][h], c, h);
      e := hashTable[h];
      ghost var k := 0;
      while e != -1
        invariant k <= |c| && e == At(c, k)
        invariant forall j :: 0 <= j < k ==> cache[c[j]].blockNo != blockNo
        decreases |c| - k
      {
        assert c[k] in c;
        if cache[e].valid && cache[e].blockNo == blockNo {
          return;
        }
        e := cache[e].next;
        k := k + 1;
      }
    }

    /** The walk of bcache_hash_remove: the entry's predecessor in its chain. */
    method HashSeek(e: nat) returns (prev: int, ghost k: nat)
      requires Hashed() && e < cache.Length && cache[e].valid
      ensures var c := chains[Hash(cache[e].blockNo)];
              k < |c| && c[k] == e && prev == (if k == 0 then -1 else c[k - 1])
    {
      hide IndexOk;
      var h := Hash(cache[e].blockNo);
      ghost var c := chains[h];
      assert BucketOk(cache[..], hashTable[..][h], c, h);
      assert cache[..][e].valid && e in c;
      ghost var p :| 0 <= p < |c| && c[p] == e;
      assert Chain(cache[..], hashTable[h], c);
      hide BucketsOk, BucketOk, Distinct;
      var cur := hashTable[h];
      prev, k := -1, 0;
      while cur != e
        invariant k <= p && cur == c[k] && prev == (if k == 0 then -1 else c[k - 1])
        decreases p - k
      {
        prev, cur := cur, cache[cur].next;
        k := k + 1;
      }
    }

    /** bcache_hash_remove: unlinks the entry and nothing else. */
    method HashRemove(e: nat) returns (ghost k: nat)
      requires Hashed() && e < cache.Length && cache[e].valid
      modifies cache, hashTable
      ensures var h := Hash(old(cache[e].blockNo));
              && Removed(old(cache[..]), cache[..], chains[h], k) && chains[h][k] == e
              && cache[e] == old(cache[e]).(next := -1)
              && hashTable[..] == old(hashTable[..])[h := if k == 0 then At(chains[h], 1) else old(hashTable[..])[h]]
    {
      var h := Hash(cache[e].blockNo);
      ghost var c := chains[h];
      var prev;
      prev, k := HashSeek(e);
      assert BucketOk(cache[..], hashTable[..][h], c, h);
      assert k > 0 ==> c[k - 1] < cache.Length && c[k - 1] != c[k];
      assert cache[e].next == At(c, k + 1) && (k == 0 || prev == c[k - 1]);
      hide BucketsOk, IndexOk, BucketOk;
      var next := cache[e].next;
      if prev == -1 {
        hashTable[h] := next;
      } else {
        cache[prev] := cache[prev].(next := next);
      }
      cache[e] := cache[e].(next := -1);
    }

    /** The first pass of bcache_evict: an unused slot, or the oldest clean unpinned entry. */
    method FirstPass() returns (unused: int, best: int)
      ensures unused != -1 ==> FirstSpare(cache[..], unused)
      ensures unused == -1 ==> IsOldest(cache[..], cache.Length, best, true)
      ensures unused == -1 ==> forall i :: 0 <= i < cache.Length ==> !Spare(cache[i])
    {
      unused, best := -1, -1;
      var bestTick := NEVER;
      for i := 0 to cache.Length
        invariant forall j :: 0 <= j < i ==> !Spare(cache[j])
        invariant IsOldest(cache[..], i, best, true) && bestTick == (if best == -1 then NEVER else cache[best].tick)
      {
        if cache[i].hasData {
          if !cache[i].valid {
            return i, best;
          }
          if cache[i].refcount == 0 && !cache[i].dirty && cache[i].tick < bestTick {
            bestTick, best := cache[i].tick, i;
          }
        }
      }
    }

    /** The second pass: the oldest unpinned entry, dirty or not. */
    method SecondPass() returns (best: int)
      ensures IsOldest(cache[..], cache.Length, best, false)
    {
      best := -1;
      var bestTick := NEVER;
      for i := 0 to cache.Length
        invariant IsOldest(cache[..], i, best, false) && bestTick == (if best == -1 then NEVER else cache[best].tick)
      {
        if cache[i].hasData && cache[i].valid && cache[i].refcount == 0 && cache[i].tick < bestTick {
          bestTick, best := cache[i].tick, i;
        }
      }
    }

    /** bcache_disk_write, whose result no caller looks at. */
    method DiskWrite(blockNo: nat, data: Data)
      modifies this`disk
      ensures disk == if blockNo in old(disk) && blockNo !in bad then old(disk)[blockNo := data] else old(disk)
    {
      if blockNo in disk && blockNo !in bad {
        disk := disk[blockNo := data];
      }
    }

    /** The end of bcache_evict: write back if dirty, unlink, mark unused. */
    method GiveUp(e: nat)
      requires Valid() && e < cache.Length && cache[e].valid
      modifies this, cache, hashTable
      ensures Valid() && !cache[e].valid && cache[e].hasData
      ensures index == old(index) - {old(cache[e].blockNo)} && disk.Keys == old(disk.Keys)
      ensures Left(old(cache[e]), old(Blocks()), Blocks(), old(disk), bad)
      ensures disk == Dropped(old(cache[e]), old(disk), bad)
      ensures cache[e].(next := 0) == old(cache[e]).(next := 0, valid := false, dirty := false)
      ensures forall i :: 0 <= i < cache.Length && i != e ==> cache[i].(next := 0) == old(cache[i]).(next := 0)
    {
      hide BucketsOk, IndexOk, Removed, Drop, View, Doomed, Left;
      ghost var h, b := Hash(cache[e].blockNo), cache[e].blockNo;
      ghost var cs := WriteBack(e);
      ghost var cs1, ht1 := cache[..], hashTable[..];
      var k := Unhash(e);
      GaveUp(cs, index, old(disk), bad, e, cache[..], disk);
      RemovedBuckets(cs1, ht1, chains, h, k, cache[..], hashTable[..], chains[h := Drop(chains[h], k)]);
      chains, index := chains[h := Drop(chains[h], k)], index - {b};
    }

    method WriteBack(e: nat) returns (ghost cs: seq<Entry>)
      requires Valid() && e < cache.Length && cache[e].valid
      modifies this`disk, cache
      ensures Hashed() && cs == old(cache[..]) && cs[e].hasData && cache[..] == cs[e := cs[e].(dirty := false)]
      ensures disk == if cs[e].dirty && cs[e].blockNo !in bad then old(disk)[cs[e].blockNo := cs[e].data] else old(disk)
    {
      cs := cache[..];
      assert cs[e].blockNo in disk;
      hide IndexOk;
      if cache[e].dirty {
        DiskWrite(cache[e].blockNo, cache[e].data);
        cache[e] := cache[e].(dirty := false);
      }
      SameBuckets(cs, hashTable[..], chains, cache[..]);
    }

    method Unhash(e: nat) returns (ghost k: nat)
      requires Hashed() && e < cache.Length && cache[e].valid
      modifies cache, hashTable
      ensures |chains| == |hashTable[..]| == BUCKETS
      ensures var h := Hash(old(cache[e].blockNo));
              && k < |chains[h]| && Removed(old(cache[..]), cache[..], chains[h], k) && chains[h][k] == e
              && cache[e] == old(cache[e]).(next := -1, valid := false)
              && hashTable[..] == old(hashTable[..])[h := if k == 0 then At(chains[h], 1) else old(hashTable[..])[h]]
      ensures forall i :: 0 <= i < cache.Length && i != e ==> cache[i].(next := 0) == old(cache[i]).(next := 0)
    {
      assert |chains| == BUCKETS;
      hide BucketsOk;
      k := HashRemove(e);
      cache[e] := cache[e].(valid := false);
    }

    /** A hit: one more holder, and the clock time. */
    method Touch(e: nat, now: nat)
      requires Valid() && e < cache.Length && cache[e].valid
      modifies cache
      ensures Valid() && Blocks() == old(Blocks())
      ensures cache[..] == old(cache[..])[e := old(cache[e]).(refcount := old(cache[e].refcount) + 1, tick := now)]
    {
      ghost var cs := cache[..];
      cache[e] := cache[e].(refcount := cache[e].refcount + 1, tick := now);
      SameBuckets(cs, hashTable[..], chains, cache[..]);
    }

    /** A miss: the block is read into a free slot and put at the front of its chain. */
    method Load(e: nat, blockNo: nat, now: nat) returns (ok: bool)
      requires Valid() && e < cache.Length && cache[e].hasData && !cache[e].valid && blockNo !in index
      modifies this, cache, hashTable
      ensures Valid() && Blocks() == old(Blocks()) && disk == old(disk)
      ensures ok == (blockNo in disk)
      ensures ok ==>
        cache[e].valid && cache[e].blockNo == blockNo && cache[e].refcount == 1 && cache[e].tick == now
        && cache[e].data == disk[blockNo]
      ensures cache[e].hasData && (!ok ==> !cache[e].valid)
      ensures cache[e].(next := 0) == Fetched(old(cache[e]), blockNo, now, disk).(next := 0)
      ensures forall i :: 0 <= i < cache.Length && i != e ==> cache[i] == old(cache[i])
    {
      ghost var cs, ht := cache[..], hashTable[..];
      hide BucketsOk;
      cache[e] := cache[e].(blockNo := blockNo, dirty := false, refcount := 1, tick := now);
      ok := blockNo in disk;
      if !ok {
        SameBuckets(cs, ht, chains, cache[..]);
        return;
      }
      var h := Hash(blockNo);
      cache[e] := cache[e].(data := disk[blockNo], valid := true, next := hashTable[h]);
      hashTable[h] := e;
      TookIn(cs, index, disk, bad, e, blockNo, cache[..]);
      InsertedBuckets(cs, ht, chains, e, cache[..]);
      chains, index := chains[h := [e] + chains[h]], index[blockNo := e];
    }

    /**
     * bcache_evict: the slot the policy picks, given up if it was in use; -1 exactly when every
     * entry is pinned (or carries the sentinel tick).
     */
    method Evict() returns (e: int)
      requires Valid()
      modifies this, cache, hashTable
      ensures Valid() && disk.Keys == old(disk.Keys) && Chosen(old(cache[..]), e)
      ensures e == -1 <==> AllPinned(old(cache[..]))
      ensures e == -1 ==> cache[..] == old(cache[..]) && index == old(index) && disk == old(disk)
      ensures e != -1 ==> 0 <= e < cache.Length && cache[e].hasData && !cache[e].valid && old(cache[e].hasData)
      ensures e != -1 && old(cache[e].valid) ==>
        Unpinned(old(cache[e])) && index == old(index) - {old(cache[e].blockNo)}
      ensures e != -1 && !old(cache[e].valid) ==> index == old(index)
      ensures OnlyLost(old(cache[..]), old(disk), bad, old(Blocks()), Blocks())
      ensures e != -1 ==> disk == Dropped(old(cache[e]), old(disk), bad)
      ensures e != -1 ==>
        cache[e].(next := 0, dirty := false) == old(cache[e]).(next := 0, valid := false, dirty := false)
      ensures e != -1 && old(cache[e].valid) ==> old(cache[e].blockNo) in old(index)
      ensures forall i :: 0 <= i < cache.Length && i != e ==> cache[i].(next := 0) == old(cache[i]).(next := 0)
    {
      var unused, best := FirstPass();
      ghost var cs := cache[..];
      if unused != -1 {
        assert Spare(cs[unused]);
        NoneChosen(cs, unused);
        NoneLost(cs, disk, bad, unused, Blocks());
        return unused;
      }
      if best == -1 {
        best := SecondPass();
      }
      assert Chosen(cs, best);
      NoneChosen(cs, best);
      hide Chosen, IsOldest, FirstSpare, AllPinned;
      if best != -1 {
        assert cs[best].blockNo in index;
        hide BucketsOk, IndexOk, OnlyLost, Doomed, View;
        GiveUp(best);
        OneLost(cs, old(disk), bad, best, old(Blocks()), Blocks());
      } else {
        NoneLost(cs, disk, bad, best, Blocks());
      }
      return best;
    }

    /**
     * bcache_get: the entry caching the block, pinned. Nobody's view of any block changes, but
     * for what a failing write-back loses.
     */
    method Get(blockNo: nat, now: nat) returns (e: int, ghost v: int)
      requires Valid() && now <= NEVER
      modifies this, cache, hashTable
      ensures Valid() && disk.Keys == old(disk.Keys)
      ensures e == -1 <==> blockNo !in old(index) && (AllPinned(old(cache[..])) || blockNo !in old(disk))
      ensures Obtained(old(cache[..]), cache[..], e, blockNo, now)
      ensures e != -1 ==> 0 <= e < cache.Length && blockNo in old(Blocks()) && cache[e].data == old(Blocks())[blockNo]
      ensures if blockNo in old(index) then Blocks() == old(Blocks())
        else OnlyLost(old(cache[..]), old(disk), bad, old(Blocks()), Blocks())
      ensures blockNo in old(index) ==>
        old(index)[blockNo] == e < |old(cache[..])| && disk == old(disk)
        && Replaced(old(cache[..]), cache[..], e, Touched(old(cache[..])[e], now))
      ensures blockNo !in old(index) ==>
        Missed(old(cache[..]), cache[..], old(disk), disk, bad, blockNo, now, e, v)
    {
      hide BucketsOk, IndexOk, View, OnlyLost, Chosen, AllPinned, Obtained, Fetched;
      ghost var cs := cache[..];
      v := -1;
      if blockNo in disk {
        SeenAt(cs, index, disk, bad, blockNo);
      }
      e := HashFind(blockNo);
      if e != -1 {
        Touch(e, now);
        HitObtains(cs, cache[..], e, now);
        return;
      }
      e := Evict();
      v := e;
      if e == -1 {
        NothingObtained(cs, blockNo, now);
        return;
      }
      ghost var cs1 := cache[..];
      SameFetch(cs1[e], cs[e], blockNo, now, old(disk), disk);
      var ok := Load(e, blockNo, now);
      MissIs(cs, cs1, cache[..], e, Fetched(cs[e], blockNo, now, old(disk)));
      MissObtains(cs, cs1, cache[..], e, blockNo, now, ok);
      if !ok {
        return -1, v;
      }
    }

    /** bcache_release. */
    method Release(e: nat)
      requires Valid() && e < cache.Length
      modifies cache
      ensures Valid() && Blocks() == old(Blocks())
      ensures var was := old(cache[e]);
              cache[..] == old(cache[..])[e := was.(refcount := if was.refcount > 0 then was.refcount - 1 else 0)]
    {
      ghost var cs := cache[..];
      if cache[e].refcount > 0 {
        cache[e] := cache[e].(refcount := cache[e].refcount - 1);
      }
      SameBuckets(cs, hashTable[..], chains, cache[..]);
    }

    /** A client changes the contents of an entry it holds and calls bcache_mark_dirty. */
    method Modify(e: nat, data: Data)
      requires Valid() && e < cache.Length && cache[e].valid && cache[e].refcount > 0
      modifies cache
      ensures Valid() && Blocks() == old(Blocks())[cache[e].blockNo := data]
      ensures cache[..] == old(cache[..])[e := old(cache[e]).(data := data, dirty := true)]
    {
      ghost var cs := cache[..];
      cache[e] := cache[e].(data := data);
      cache[e] := cache[e].(dirty := true);
      SameBuckets(cs, hashTable[..], chains, cache[..]);
      hide BucketsOk;
      assert forall b :: b in index && b != cs[e].blockNo ==> index[b] != e;
      assert Blocks() == old(Blocks())[cache[e].blockNo := data];
    }

    /** bcache_sync: afterwards every block of a working disk is what the client sees. */
    method Sync()
      requires Valid()
      modifies this`disk, cache
      ensures Valid() && Blocks() == old(Blocks()) && disk.Keys == old(disk.Keys)
      ensures forall i :: 0 <= i < cache.Length ==>
        cache[i] == Clean(old(cache[i])) && !(cache[i].valid && cache[i].dirty)
      ensures forall b :: b in disk ==> disk[b] == if b in bad then old(disk)[b] else Blocks()[b]
    {
      hide BucketsOk;
      for i := 0 to cache.Length
        invariant Valid() && Blocks() == old(Blocks()) && disk.Keys == old(disk.Keys)
        invariant forall j :: 0 <= j < cache.Length ==>
          cache[j] == if j < i then Clean(old(cache[j])) else old(cache[j])
        invariant forall b :: b in disk && b in bad ==> disk[b] == old(disk)[b]
      {
        if cache[i].valid && cache[i].dirty {
          Flush(i);
        }
      }
    }

    method Flush(e: nat)
      requires Valid() && e < cache.Length && cache[e].valid && cache[e].dirty
      modifies this`disk, cache
      ensures Valid() && Blocks() == old(Blocks()) && disk.Keys == old(disk.Keys)
      ensures cache[..] == old(cache[..])[e := old(cache[e]).(dirty := false)]
      ensures forall b :: b in disk && b in bad ==> disk[b] == old(disk)[b]
    {
      var cs := WriteBack(e);
      hide BucketsOk;
      assert forall b :: b in index && b != cs[e].blockNo ==> index[b] != e;
      assert Blocks() == old(Blocks());
    }
  }

  // ----- clients that hold entries -----

  /** What a client may ask. A hold is named by the position of the request that got it. */
  datatype Op = Get(blockNo: nat) | Look(hold: nat) | Store(hold: nat, data: Data) | Release(hold: nat) | Sync

  datatype Answer = Got(entry: nat) | Unavailable | Data(data: Data) | Done | NotHeld

  /** The pointer a client has, and the block it asked for. */
  datatype Lease = Lease(entry: nat, blockNo: nat)

  type Leases = map<nat, Lease>

  /** The plain array of blocks, the holds on it, and what lies below. */
  datatype Moment = Moment(blocks: Disk, holds: Leases, entries: seq<Entry>, index: map<nat, nat>, disk: Disk)

  /** The entry still caches the block it was asked for, pinned, with the contents of the plain array. */
  predicate Kept(m: Moment, l: Lease) {
    && l.entry < |m.entries| && m.entries[l.entry].valid && m.entries[l.entry].blockNo == l.blockNo
    && m.entries[l.entry].refcount > 0
    && l.blockNo in m.blocks && m.entries[l.entry].data == m.blocks[l.blockNo]
  }

  ghost predicate AllKept(m: Moment) { forall t :: t in m.holds ==> Kept(m, m.holds[t]) }

  ghost function HeldBlocks(holds: Leases): set<nat> { set t | t in holds :: holds[t].blockNo }

  ghost function Buffers(cs: seq<Entry>): set<nat> { set i: nat | i < |cs| && cs[i].hasData }

  /** There is no such block, or as many blocks are held as there are buffers and this is none of them. */
  ghost predicate NoBuffer(m: Moment, b: nat) {
    b !in m.blocks || (b !in HeldBlocks(m.holds) && |Buffers(m.entries)| <= |HeldBlocks(m.holds)|)
  }

  /** Blocks change only where the disk refuses writes and nobody holds the block. */
  ghost predicate Settled(m: Moment, m': Moment, b: nat, bad: set<nat>) {
    && m'.blocks.Keys == m.blocks.Keys && (b in m.index ==> m'.blocks == m.blocks)
    && forall x :: x in m.blocks && b !in m.index ==>
      if Loses(m.entries, m.disk, bad, x) then
        m'.blocks[x] != m.blocks[x] && x in bad && x !in HeldBlocks(m.holds)
      else m'.blocks[x] == m.blocks[x]
  }

  /** The block is not cached, and no entry can be given up for it or it is not on the disk. */
  ghost predicate Unobtainable(m: Moment, b: nat) { b !in m.index && (AllPinned(m.entries) || b !in m.disk) }

  /** Every entry in use is clean, and otherwise as it was. */
  function Clean(en: Entry): Entry { en.(dirty := en.dirty && !en.valid) }

  predicate Cleaned(cs: seq<Entry>, cs': seq<Entry>) {
    |cs'| == |cs| && forall i :: 0 <= i < |cs| ==> cs'[i] == Clean(cs[i])
  }

  /** Entry `e` after its holder stored `data`, and after a holder let go. */
  function Stored(cs: seq<Entry>, e: nat, data: Data): seq<Entry> {
    if e < |cs| then cs[e := cs[e].(data := data, dirty := true)] else cs
  }

  function LetGo(cs: seq<Entry>, e: nat): seq<Entry> {
    if e < |cs| && cs[e].refcount > 0 then cs[e := cs[e].(refcount := cs[e].refcount - 1)] else cs
  }

  /** A get: which entry, if any, and what else changes. */
  ghost predicate GetStep(m: Moment, k: nat, b: nat, now: nat, answer: Answer, m': Moment, bad: set<nat>,
                          timely: bool) {
    && (answer == Unavailable || (answer.Got? && b in m.blocks)) && (answer == Unavailable <==> Unobtainable(m, b))
    && (NoBuffer(m, b) ==> answer == Unavailable) && (timely && answer == Unavailable ==> NoBuffer(m, b))
    && Obtained(m.entries, m'.entries, EntryOf(answer), b, now)
    && Turned(m, b, now, EntryOf(answer), m', bad) && Settled(m, m', b, bad)
    && m'.holds == if answer.Got? then m.holds[k := Lease(answer.entry, b)] else m.holds
  }

  /** What becomes of the entries and the disk, to the last bit but for how the chains run. */
  ghost predicate Turned(m: Moment, b: nat, now: nat, e: int, m': Moment, bad: set<nat>) {
    if b in m.index then
      && m.index[b] == e < |m.entries| && m'.disk == m.disk
      && Replaced(m.entries, m'.entries, e, Touched(m.entries[e], now))
    else exists v :: Missed(m.entries, m'.entries, m.disk, m'.disk, bad, b, now, e, v)
  }

  function EntryOf(answer: Answer): int { if answer.Got? then answer.entry else -1 }

  /**
   * Request `k` and its answer on the plain array. A block cannot be had if there is no
   * buffer for it; and, when no time was the sentinel and all holds are known, only then.
   */
  ghost predicate Step(m: Moment, k: nat, op: Op, now: nat, answer: Answer, m': Moment, bad: set<nat>, timely: bool) {
    match op
    case Get(b) => GetStep(m, k, b, now, answer, m', bad, timely)
    case Look(t) => m' == m && answer == if t in m.holds then Data(Contents(m.blocks, m.holds[t].blockNo)) else NotHeld
    case Store(t, data) =>
      if t in m.holds then
        answer == Done && m' == m.(blocks := m.blocks[m.holds[t].blockNo := data],
                                   entries := Stored(m.entries, m.holds[t].entry, data))
      else answer == NotHeld && m' == m
    case Release(t) =>
      if t in m.holds then
        answer == Done && m' == m.(holds := m.holds - {t}, entries := LetGo(m.entries, m.holds[t].entry))
      else answer == NotHeld && m' == m
    case Sync =>
      && answer == Done && m' == m.(entries := m'.entries, disk := m'.disk)
      && Cleaned(m.entries, m'.entries) && SyncedTo(m.disk, m'.disk, m'.blocks, bad)
  }

  function Contents(blocks: Disk, b: nat): Data { if b in blocks then blocks[b] else [] }

  /** The disk holds the array, but for the blocks it refuses, which it holds as before. */
  ghost predicate SyncedTo(disk: Disk, disk': Disk, blocks: Disk, bad: set<nat>) {
    && disk'.Keys == blocks.Keys == disk.Keys
    && forall b :: b in disk ==> disk'[b] == if b in bad then disk[b] else blocks[b]
  }

  // ----- what the cache knows of the holds -----

  ghost function Holders(holds: Leases, e: nat): set<nat> { set t | t in holds && holds[t].entry == e }

  predicate LeaseOk(cs: seq<Entry>, l: Lease) {
    l.entry < |cs| && cs[l.entry].valid && cs[l.entry].blockNo == l.blockNo
  }

  /** Every hold is counted. */
  ghost predicate Leased(cs: seq<Entry>, holds: Leases) {
    && (forall t :: t in holds ==> LeaseOk(cs, holds[t]))
    && forall e :: 0 <= e < |cs| && cs[e].valid ==> cs[e].refcount >= |Holders(holds, e)|
  }

  /** Nothing else is, and no tick is the sentinel. */
  ghost predicate Exact(cs: seq<Entry>, holds: Leases) {
    forall e :: 0 <= e < |cs| && cs[e].valid ==> cs[e].refcount == |Holders(holds, e)| && cs[e].tick < NEVER
  }

  lemma HolderCounts(holds: Leases, t: nat)
    requires t in holds
    ensures 0 < |Holders(holds, holds[t].entry)|
  {
    assert t in Holders(holds, holds[t].entry);
  }

  lemma OneMore(holds: Leases, k: nat, l: Lease, e: nat)
    requires k !in holds
    ensures |Holders(holds[k := l], e)| == |Holders(holds, e)| + if e == l.entry then 1 else 0
  {
    var more := holds[k := l];
    if e == l.entry {
      assert Holders(more, e) == Holders(holds, e) + {k};
    } else {
      assert Holders(more, e) == Holders(holds, e);
    }
  }

  lemma OneLess(holds: Leases, k: nat, e: nat)
    requires k in holds
    ensures |Holders(holds - {k}, e)| == |Holders(holds, e)| - if e == holds[k].entry then 1 else 0
  {
    if e == holds[k].entry {
      assert Holders(holds - {k}, e) == Holders(holds, e) - {k};
    } else {
      assert Holders(holds - {k}, e) == Holders(holds, e);
    }
  }

  /** A pinned, counted entry holds its block's contents. */
  lemma LeaseKept(cs: seq<Entry>, index: map<nat, nat>, disk: Disk, bad: set<nat>, holds: Leases, t: nat)
    requires IndexOk(cs, index, disk, bad) && Leased(cs, holds) && t in holds
    ensures Kept(Moment(View(cs, index, disk), holds, cs, index, disk), holds[t])
  {
    HolderCounts(holds, t);
  }

  lemma LeasesKept(cs: seq<Entry>, index: map<nat, nat>, disk: Disk, bad: set<nat>, holds: Leases)
    requires IndexOk(cs, index, disk, bad) && Leased(cs, holds)
    ensures AllKept(Moment(View(cs, index, disk), holds, cs, index, disk))
  {
    hide IndexOk, Leased, View, Kept;
    forall t | t in holds ensures Kept(Moment(View(cs, index, disk), holds, cs, index, disk), holds[t]) {
      LeaseKept(cs, index, disk, bad, holds, t);
    }
  }

  /** An entry that is not in use, or that nobody holds, has no holder. */
  lemma NoHolder(cs: seq<Entry>, holds: Leases, e: nat)
    requires Leased(cs, holds) && e < |cs| && (cs[e].valid ==> cs[e].refcount == 0)
    ensures |Holders(holds, e)| == 0
  {
    if t :| t in Holders(holds, e) {
      HolderCounts(holds, t);
    }
  }

  lemma StillLeased(cs: seq<Entry>, cs': seq<Entry>, holds: Leases, e: int, b: nat, now: nat, t: nat)
    requires Leased(cs, holds) && Obtained(cs, cs', e, b, now) && t in holds
    ensures LeaseOk(cs', holds[t])
  {
    hide Holders;
    HolderCounts(holds, t);
    var i := holds[t].entry;
    if i == e {
      NoHolderOr(cs, holds, i);
    } else {
      assert cs'[i].(next := 0) == cs[i].(next := 0);
    }
  }

  lemma NoHolderOr(cs: seq<Entry>, holds: Leases, e: nat)
    requires Leased(cs, holds) && e < |cs|
    ensures (cs[e].valid ==> cs[e].refcount == 0) ==> |Holders(holds, e)| == 0
  {
    if cs[e].valid ==> cs[e].refcount == 0 {
      NoHolder(cs, holds, e);
    }
  }

  lemma LeasedMore(cs: seq<Entry>, cs': seq<Entry>, holds: Leases, e: int, b: nat, now: nat, k: nat)
    requires Leased(cs, holds) && Obtained(cs, cs', e, b, now) && k !in holds
    ensures Leased(cs', if e == -1 then holds else holds[k := Lease(e, b)])
    ensures Exact(cs, holds) && now < NEVER ==> Exact(cs', if e == -1 then holds else holds[k := Lease(e, b)])
  {
    hide Holders, Leased, LeaseOk;
    var holds' := if e == -1 then holds else holds[k := Lease(e, b)];
    forall t | t in holds' ensures LeaseOk(cs', holds'[t]) {
      if t in holds {
        StillLeased(cs, cs', holds, e, b, now, t);
      } else {
        NewLease(cs, cs', e, b, now);
      }
    }
    forall i | 0 <= i < |cs'| && cs'[i].valid
      ensures cs'[i].refcount >= |Holders(holds', i)|
      ensures Exact(cs, holds) && now < NEVER ==> cs'[i].refcount == |Holders(holds', i)| && cs'[i].tick < NEVER
    {
      CountedAt(cs, cs', holds, e, b, now, k, i);
    }
    IsLeased(cs', holds');
  }

  lemma IsLeased(cs: seq<Entry>, holds: Leases)
    requires forall t :: t in holds ==> LeaseOk(cs, holds[t])
    requires forall e :: 0 <= e < |cs| && cs[e].valid ==> cs[e].refcount >= |Holders(holds, e)|
    ensures Leased(cs, holds)
  {
  }

  lemma NewLease(cs: seq<Entry>, cs': seq<Entry>, e: int, b: nat, now: nat)
    requires Obtained(cs, cs', e, b, now) && e != -1
    ensures 0 <= e < |cs'| && LeaseOk(cs', Lease(e, b))
  {
  }

  lemma CountedAt(cs: seq<Entry>, cs': seq<Entry>, holds: Leases, e: int, b: nat, now: nat, k: nat, i: nat)
    requires Leased(cs, holds) && Obtained(cs, cs', e, b, now) && k !in holds && i < |cs'| && cs'[i].valid
    ensures var holds' := if e == -1 then holds else holds[k := Lease(e, b)];
            && cs'[i].refcount >= |Holders(holds', i)|
            && (Exact(cs, holds) && now < NEVER ==> cs'[i].refcount == |Holders(holds', i)| && cs'[i].tick < NEVER)
  {
    hide Holders;
    NoHolderOr(cs, holds, i);
    if e != -1 {
      OneMore(holds, k, Lease(e, b), i);
    }
    if i != e {
      assert cs'[i].(next := 0) == cs[i].(next := 0);
    }
  }

  /** Letting go of a hold. */
  lemma LeasedLess(cs: seq<Entry>, cs': seq<Entry>, holds: Leases, t: nat)
    requires Leased(cs, holds) && t in holds && holds[t].entry < |cs| && cs[holds[t].entry].refcount > 0
    requires cs' == cs[holds[t].entry := cs[holds[t].entry].(refcount := cs[holds[t].entry].refcount - 1)]
    ensures Leased(cs', holds - {t}) && (Exact(cs, holds) ==> Exact(cs', holds - {t}))
  {
    hide Holders;
    forall e: nat ensures |Holders(holds - {t}, e)| == |Holders(holds, e)| - if e == holds[t].entry then 1 else 0 {
      OneLess(holds, t, e);
    }
  }

  /** Changes to contents and dirty flags. */
  lemma LeasedSame(cs: seq<Entry>, cs': seq<Entry>, holds: Leases)
    requires Leased(cs, holds) && |cs'| == |cs| && forall i :: 0 <= i < |cs| ==>
      cs'[i].(data := [], dirty := false) == cs[i].(data := [], dirty := false)
    ensures Leased(cs', holds) && (Exact(cs, holds) ==> Exact(cs', holds))
  {
    hide Holders;
    forall i | 0 <= i < |cs|
      ensures cs'[i].valid == cs[i].valid && cs'[i].refcount == cs[i].refcount && cs'[i].blockNo == cs[i].blockNo
        && cs'[i].tick == cs[i].tick
    {
      assert cs'[i].(data := [], dirty := false) == cs[i].(data := [], dirty := false);
    }
  }

  /** The moment is a state of the cache: chains aside, everything about it is consistent. */
  ghost predicate Sound(m: Moment, bad: set<nat>) {
    && IndexOk(m.entries, m.index, m.disk, bad) && m.blocks == View(m.entries, m.index, m.disk)
    && Leased(m.entries, m.holds)
  }

  // ----- when no buffer can be had -----

  lemma {:induction false} ImageSize(m: map<nat, nat>)
    requires forall a, b :: a in m && b in m && m[a] == m[b] ==> a == b
    ensures |m.Values| == |m.Keys|
    decreases |m|
  {
    if m != map[] {
      var x :| x in m;
      var rest := m - {x};
      ImageSize(rest);
      assert m.Keys == rest.Keys + {x};
      assert m.Values == rest.Values + {m[x]} && m[x] !in rest.Values;
    }
  }

  lemma {:induction false} SubsetSize(a: set<nat>, b: set<nat>)
    requires a <= b
    ensures |a| <= |b| && (|a| == |b| ==> a == b)
  {
    if x :| x in a {
      SubsetSize(a - {x}, b - {x});
      assert a == a - {x} + {x} && b == b - {x} + {x};
    }
  }

  /** Each held block has an entry of its own. */
  lemma HeldEntries(cs: seq<Entry>, index: map<nat, nat>, disk: Disk, bad: set<nat>, holds: Leases)
    requires IndexOk(cs, index, disk, bad) && Leased(cs, holds)
    ensures forall b :: b in HeldBlocks(holds) ==>
      b in index && b in disk && index[b] in Buffers(cs) && cs[index[b]].valid && cs[index[b]].refcount > 0
  {
    forall b | b in HeldBlocks(holds)
      ensures b in index && b in disk && index[b] in Buffers(cs) && cs[index[b]].valid && cs[index[b]].refcount > 0 {
      var t :| t in holds && holds[t].blockNo == b;
      HolderCounts(holds, t);
    }
  }

  /** As many held blocks as buffers: every buffer is pinned, and no other block is cached. */
  lemma AllHeld(cs: seq<Entry>, index: map<nat, nat>, disk: Disk, bad: set<nat>, holds: Leases, b: nat)
    requires IndexOk(cs, index, disk, bad) && Leased(cs, holds) && |Buffers(cs)| <= |HeldBlocks(holds)|
      && b !in HeldBlocks(holds)
    ensures b !in index && AllPinned(cs)
  {
    HeldEntries(cs, index, disk, bad, holds);
    hide HeldBlocks, Leased;
    var at := map x | x in HeldBlocks(holds) :: index[x];
    ImageSize(at);
    assert at.Keys == HeldBlocks(holds);
    SubsetSize(at.Values, Buffers(cs));
    forall i | 0 <= i < |cs| && cs[i].hasData
      ensures cs[i].valid && !Unpinned(cs[i]) && cs[i].blockNo in HeldBlocks(holds) {
      assert i in at.Values;
    }
  }

  /** Every buffer pinned, by holds alone: as many blocks are held. */
  lemma PinnedHeld(cs: seq<Entry>, index: map<nat, nat>, disk: Disk, bad: set<nat>, holds: Leases)
    requires IndexOk(cs, index, disk, bad) && Leased(cs, holds) && Exact(cs, holds) && AllPinned(cs)
    ensures |Buffers(cs)| <= |HeldBlocks(holds)|
  {
    var of := map i | i in Buffers(cs) :: cs[i].blockNo;
    assert of.Keys == Buffers(cs);
    forall i | i in Buffers(cs) ensures cs[i].blockNo in HeldBlocks(holds) {
      var t :| t in Holders(holds, i);
      assert LeaseOk(cs, holds[t]);
    }
    hide HeldBlocks, Leased, Exact;
    ImageSize(of);
    SubsetSize(of.Values, HeldBlocks(holds));
  }

  /** A get fails exactly when there is no buffer for the block. */
  lemma Refusal(cs: seq<Entry>, index: map<nat, nat>, disk: Disk, bad: set<nat>, holds: Leases, b: nat)
    requires IndexOk(cs, index, disk, bad) && Leased(cs, holds)
    ensures var m := Moment(View(cs, index, disk), holds, cs, index, disk);
            (NoBuffer(m, b) ==> Unobtainable(m, b)) && (Exact(cs, holds) && Unobtainable(m, b) ==> NoBuffer(m, b))
  {
    ViewKeys(cs, index, disk);
    HeldEntries(cs, index, disk, bad, holds);
    assert b in index ==> b in disk;
    hide HeldBlocks, Buffers, AllPinned, View, IndexOk, Leased, Exact;
    if |Buffers(cs)| <= |HeldBlocks(holds)| && b !in HeldBlocks(holds) {
      AllHeld(cs, index, disk, bad, holds, b);
    }
    if Exact(cs, holds) && AllPinned(cs) {
      PinnedHeld(cs, index, disk, bad, holds);
    }
  }

  /** What eviction loses nobody holds. */
  lemma LostUnheld(cs: seq<Entry>, index: map<nat, nat>, disk: Disk, bad: set<nat>, holds: Leases, x: nat)
    requires IndexOk(cs, index, disk, bad) && Leased(cs, holds) && Loses(cs, disk, bad, x)
    ensures x in bad && x !in HeldBlocks(holds)
  {
    hide Chosen;
    var e :| Chosen(cs, e) && 0 <= e < |cs| && Doomed(cs[e], disk, bad) && cs[e].blockNo == x;
    NoneChosen(cs, e);
    HeldEntries(cs, index, disk, bad, holds);
  }

  // ----- runs -----

  method ServeGet(c: Cache, k: nat, b: nat, now: nat, ghost holds: Leases)
    returns (answer: Answer, ghost holds': Leases)
    requires c.Valid() && now <= NEVER && Leased(c.cache[..], holds) && k !in holds
    modifies c, c.cache, c.hashTable
    ensures c.Valid() && Leased(c.cache[..], holds')
      && (old(Exact(c.cache[..], holds)) && now < NEVER ==> Exact(c.cache[..], holds'))
    ensures Step(old(c.Now(holds)), k, Get(b), now, answer, c.Now(holds'), c.bad, old(Exact(c.cache[..], holds)))
    ensures holds' == if answer.Got? then holds[k := Lease(answer.entry, b)] else holds
  {
    hide BucketsOk, IndexOk, View, AllPinned, Leased, Exact, Obtained, Loses, NoBuffer, Missed, Replaced, Touched;
    ghost var cs, index, disk, blocks := c.cache[..], c.index, c.disk, c.Blocks();
    Refusal(cs, index, disk, c.bad, holds, b);
    ViewKeys(cs, index, disk);
    var e;
    ghost var v;
    e, v := c.Get(b, now);
    ViewKeys(c.cache[..], c.index, c.disk);
    forall x | Loses(cs, disk, c.bad, x) ensures x in c.bad && x !in HeldBlocks(holds) {
      LostUnheld(cs, index, disk, c.bad, holds, x);
    }
    LeasedMore(cs, c.cache[..], holds, e, b, now, k);
    if e == -1 {
      return Unavailable, holds;
    }
    return Got(e), holds[k := Lease(e, b)];
  }

  method ServeHold(c: Cache, k: nat, op: Op, entry: nat, ghost holds: Leases)
    returns (answer: Answer, ghost holds': Leases)
    requires c.Valid() && Leased(c.cache[..], holds) && (op.Look? || op.Store? || op.Release?) && op.hold in holds
      && entry == holds[op.hold].entry
    modifies c, c.cache, c.hashTable
    ensures c.Valid() && Leased(c.cache[..], holds') && (old(Exact(c.cache[..], holds)) ==> Exact(c.cache[..], holds'))
    ensures forall now, timely :: Step(old(c.Now(holds)), k, op, now, answer, c.Now(holds'), c.bad, timely)
    ensures holds' == if op.Release? then holds - {op.hold} else holds
  {
    hide BucketsOk, IndexOk, View, Leased, Exact;
    ghost var cs := c.cache[..];
    LeaseKept(cs, c.index, c.disk, c.bad, holds, op.hold);
    holds' := holds;
    match op
    case Look(t) =>
      answer := Data(c.cache[entry].data);
    case Store(t, data) =>
      c.Modify(entry, data);
      LeasedSame(cs, c.cache[..], holds);
      answer := Done;
    case Release(t) =>
      c.Release(entry);
      LeasedLess(cs, c.cache[..], holds, t);
      holds' := holds - {t};
      answer := Done;
  }

  /** One request. The client keeps its pointers in `held`. */
  method Serve(c: Cache, k: nat, op: Op, now: nat, held: Leases) returns (answer: Answer, held': Leases)
    requires c.Valid() && now <= NEVER && Leased(c.cache[..], held) && forall t :: t in held ==> t < k
    modifies c, c.cache, c.hashTable
    ensures c.Valid() && Leased(c.cache[..], held') && forall t :: t in held' ==> t < k + 1
    ensures old(Exact(c.cache[..], held)) && now < NEVER ==> Exact(c.cache[..], held')
    ensures Step(old(c.Now(held)), k, op, now, answer, c.Now(held'), c.bad, old(Exact(c.cache[..], held)))
    ensures AllKept(c.Now(held'))
  {
    hide BucketsOk, IndexOk, View, Leased, Exact, AllKept, GetStep;
    held' := held;
    if op.Get? {
      ghost var holds;
      answer, holds := ServeGet(c, k, op.blockNo, now, held);
      if answer.Got? {
        held' := held[k := Lease(answer.entry, op.blockNo)];
      }
      assert holds == held';
    } else if op.Sync? {
      ghost var cs := c.cache[..];
      ViewKeys(cs, c.index, c.disk);
      c.Sync();
      SyncLeased(cs, c.cache[..], held);
      answer := Done;
    } else if op.hold !in held {
      answer := NotHeld;
    } else {
      ghost var holds;
      answer, holds := ServeHold(c, k, op, held[op.hold].entry, held);
      if op.Release? {
        held' := held - {op.hold};
      }
    }
    LeasesKept(c.cache[..], c.index, c.disk, c.bad, held');
  }

  lemma SyncLeased(cs: seq<Entry>, cs': seq<Entry>, holds: Leases)
    requires Leased(cs, holds) && |cs'| == |cs| && forall i :: 0 <= i < |cs| ==>
      cs'[i].(dirty := false) == cs[i].(dirty := false)
    ensures Leased(cs', holds) && (Exact(cs, holds) ==> Exact(cs', holds))
  {
    forall i | 0 <= i < |cs| ensures cs'[i].(data := [], dirty := false) == cs[i].(data := [], dirty := false) {
      assert cs'[i].(dirty := false) == cs[i].(dirty := false);
    }
    LeasedSame(cs, cs', holds);
  }

  /** Every request led from one state of the cache to the next, and in every one every hold was kept. */
  ghost predicate Trace(ops: seq<Op>, ticks: seq<nat>, answers: seq<Answer>, moments: seq<Moment>, bad: set<nat>,
                        timely: bool) {
    && |answers| == |ops| <= |ticks| && |moments| == |ops| + 1
    && (forall k :: 0 <= k < |ops| ==> Step(moments[k], k, ops[k], ticks[k], answers[k], moments[k + 1], bad, timely))
    && forall k :: 0 <= k < |moments| ==> Sound(moments[k], bad) && AllKept(moments[k])
  }

  /** The request stores to block `b`. */
  predicate StoresTo(m: Moment, op: Op, b: nat) { op.Store? && op.hold in m.holds && m.holds[op.hold].blockNo == b }

  lemma BlockKept(m: Moment, k: nat, op: Op, now: nat, answer: Answer, m': Moment, bad: set<nat>, timely: bool, b: nat)
    requires Step(m, k, op, now, answer, m', bad, timely) && !StoresTo(m, op, b) && b in m.blocks && b !in bad
    ensures b in m'.blocks && m'.blocks[b] == m.blocks[b]
  {
    hide Loses, Obtained, Missed, Replaced;
  }

  lemma {:induction false} BlockStays(ops: seq<Op>, ticks: seq<nat>, answers: seq<Answer>, ms: seq<Moment>,
                                      bad: set<nat>, timely: bool, x: nat, y: nat, b: nat)
    requires Trace(ops, ticks, answers, ms, bad, timely) && x <= y <= |ops| && b in ms[x].blocks && b !in bad
    requires forall k :: x <= k < y ==> !StoresTo(ms[k], ops[k], b)
    ensures b in ms[y].blocks && ms[y].blocks[b] == ms[x].blocks[b]
    decreases y
  {
    hide Step, Sound, AllKept, StoresTo;
    if x < y {
      BlockStays(ops, ticks, answers, ms, bad, timely, x, y - 1, b);
      BlockKept(ms[y - 1], y - 1, ops[y - 1], ticks[y - 1], answers[y - 1], ms[y], bad, timely, b);
    }
  }

  /**
   * A client that looks at a block of a working disk sees what was last stored there, through
   * whatever hold and however often the block was evicted in between.
   */
  lemma LooksAtLastStore(ops: seq<Op>, ticks: seq<nat>, answers: seq<Answer>, ms: seq<Moment>, bad: set<nat>,
                         timely: bool, x: nat, y: nat, b: nat)
    requires Trace(ops, ticks, answers, ms, bad, timely) && x < y < |ops| && b !in bad
    requires StoresTo(ms[x], ops[x], b) && forall k :: x < k < y ==> !StoresTo(ms[k], ops[k], b)
    requires ops[y].Look? && ops[y].hold in ms[y].holds && ms[y].holds[ops[y].hold].blockNo == b
    ensures answers[y] == Data(ops[x].data)
  {
    var n := x + 1;
    assert Step(ms[x], x, ops[x], ticks[x], answers[x], ms[n], bad, timely);
    assert Step(ms[y], y, ops[y], ticks[y], answers[y], ms[y + 1], bad, timely);
    hide Sound, AllKept, GetStep, SyncedTo, Cleaned, Stored;
    BlockStays(ops, ticks, answers, ms, bad, timely, n, y, b);
  }

  lemma TraceMore(ops: seq<Op>, ticks: seq<nat>, answers: seq<Answer>, moments: seq<Moment>, bad: set<nat>,
                  timely: bool, op: Op, answer: Answer, m: Moment)
    requires Trace(ops, ticks, answers, moments, bad, timely) && AllKept(m) && Sound(m, bad) && |ops| < |ticks|
    requires Step(moments[|ops|], |ops|, op, ticks[|ops|], answer, m, bad, timely)
    ensures Trace(ops + [op], ticks, answers + [answer], moments + [m], bad, timely)
  {
    hide Step, AllKept, Sound;
  }

  /** The general promise is part of the exact one. */
  lemma Lenient(m: Moment, k: nat, op: Op, now: nat, answer: Answer, m': Moment, bad: set<nat>, timely: bool)
    requires Step(m, k, op, now, answer, m', bad, timely)
    ensures Step(m, k, op, now, answer, m', bad, false)
  {
    hide Settled, NoBuffer, SyncedTo, Obtained, Turned, Unobtainable, Cleaned, Chosen;
  }

  lemma NoLeases(cs: seq<Entry>)
    ensures Leased(cs, map[]) && forall e: nat :: |Holders(map[], e)| == 0
  {
    forall e: nat ensures Holders(map[], e) == {} {
    }
  }

  /** Nobody holds an entry, and no tick is the sentinel. */
  predicate Calm(cs: seq<Entry>) {
    forall i :: 0 <= i < |cs| && cs[i].valid ==> cs[i].refcount == 0 && cs[i].tick < NEVER
  }

  /**
   * Every sequence of requests, with any number of holds open at a time, is answered as by
   * a plain array of blocks; every hold keeps its entry, block and contents until it is
   * released, also on a failing disk; and if at first nobody holds an entry, and no clock
   * time is the sentinel, a block cannot be had exactly when there is no buffer for it.
   */
  method Run(c: Cache, ops: seq<Op>, ticks: seq<nat>) returns (answers: seq<Answer>, ghost moments: seq<Moment>)
    requires c.Valid() && |ticks| == |ops| && forall k :: 0 <= k < |ticks| ==> ticks[k] <= NEVER
    modifies c, c.cache, c.hashTable
    ensures c.Valid() && Trace(ops, ticks, answers, moments, c.bad, false)
    ensures moments[0] == old(c.Now(map[])) && moments[|ops|] == c.Now(moments[|ops|].holds)
    ensures old(Calm(c.cache[..])) && (forall k :: 0 <= k < |ticks| ==> ticks[k] < NEVER) ==>
      Trace(ops, ticks, answers, moments, c.bad, true)
  {
    hide BucketsOk, IndexOk, View, Leased, Exact, Step, Trace, AllKept;
    var held: Leases := map[];
    answers, moments := [], [c.Now(map[])];
    ghost var timely := Calm(c.cache[..]) && forall k :: 0 <= k < |ticks| ==> ticks[k] < NEVER;
    NoLeases(c.cache[..]);
    assert timely ==> Exact(c.cache[..], held) by { CalmExact(c.cache[..]); }
    LeasesKept(c.cache[..], c.index, c.disk, c.bad, held);
    TraceNone(ticks, moments[0], c.bad, false);
    TraceNone(ticks, moments[0], c.bad, true);
    for k := 0 to |ops|
      invariant c.Valid() && Leased(c.cache[..], held) && (timely ==> Exact(c.cache[..], held))
        && forall t :: t in held ==> t < k
      invariant |answers| == k && |moments| == k + 1 && moments[0] == old(c.Now(map[])) && moments[k] == c.Now(held)
      invariant Trace(ops[..k], ticks, answers, moments, c.bad, false)
      invariant timely ==> Trace(ops[..k], ticks, answers, moments, c.bad, true)
    {
      ghost var m, before := c.Now(held), Exact(c.cache[..], held);
      var answer;
      answer, held := Serve(c, k, ops[k], ticks[k], held);
      Lenient(m, k, ops[k], ticks[k], answer, c.Now(held), c.bad, before);
      if timely {
        TraceMore(ops[..k], ticks, answers, moments, c.bad, true, ops[k], answer, c.Now(held));
      }
      TraceMore(ops[..k], ticks, answers, moments, c.bad, false, ops[k], answer, c.Now(held));
      assert ops[..k + 1] == ops[..k] + [ops[k]];
      answers, moments := answers + [answer], moments + [c.Now(held)];
    }
    assert ops[..|ops|] == ops;
  }

  lemma TraceNone(ticks: seq<nat>, m: Moment, bad: set<nat>, timely: bool)
    requires AllKept(m) && Sound(m, bad)
    ensures Trace([], ticks, [], [m], bad, timely)
  {
  }

  lemma CalmExact(cs: seq<Entry>)
    ensures Calm(cs) ==> Exact(cs, map[])
  {
    NoLeases(cs);
  }

  // ----- every run is determined -----

  /** The caches differ at most in how the chains run. */
  ghost predicate Alike(m: Moment, n: Moment) {
    && m.disk == n.disk && m.holds == n.holds && |m.entries| == |n.entries|
    && forall i :: 0 <= i < |m.entries| ==> m.entries[i].(next := 0) == n.entries[i].(next := 0)
  }

  /** The entries say where each block is, and what it holds. */
  lemma SameIndex(m: Moment, n: Moment, bad: set<nat>)
    requires Alike(m, n) && Sound(m, bad) && Sound(n, bad)
    ensures m.index == n.index && m.blocks == n.blocks
  {
    hide Leased;
    forall i | 0 <= i < |m.entries|
      ensures m.entries[i].valid == n.entries[i].valid && m.entries[i].blockNo == n.entries[i].blockNo
        && m.entries[i].data == n.entries[i].data
    {
      assert m.entries[i].(next := 0) == n.entries[i].(next := 0);
    }
    forall b ensures b in m.index <==> b in n.index {
      if b in m.index { assert n.entries[m.index[b]].blockNo == b; }
      if b in n.index { assert m.entries[n.index[b]].blockNo == b; }
    }
    forall b | b in m.index ensures m.index[b] == n.index[b] {
      assert n.entries[m.index[b]].blockNo == b;
    }
  }

  lemma SameChoice(cs: seq<Entry>, cs2: seq<Entry>, e: int)
    requires |cs| == |cs2| && forall i :: 0 <= i < |cs| ==> cs[i].(next := 0) == cs2[i].(next := 0)
    requires Chosen(cs, e)
    ensures Chosen(cs2, e)
  {
    forall i | 0 <= i < |cs|
      ensures Spare(cs[i]) == Spare(cs2[i]) && Unpinned(cs[i]) == Unpinned(cs2[i]) && cs[i].dirty == cs2[i].dirty
        && cs[i].tick == cs2[i].tick
    {
      assert cs[i].(next := 0) == cs2[i].(next := 0);
    }
  }

  lemma ReplacedAlike(cs: seq<Entry>, cs2: seq<Entry>, a: seq<Entry>, b: seq<Entry>, e: nat, x: Entry, y: Entry)
    requires |cs| == |cs2| && forall i :: 0 <= i < |cs| ==> cs[i].(next := 0) == cs2[i].(next := 0)
    requires Replaced(cs, a, e, x) && Replaced(cs2, b, e, y) && x.(next := 0) == y.(next := 0)
    ensures |a| == |b| && forall i :: 0 <= i < |a| ==> a[i].(next := 0) == b[i].(next := 0)
  {
    forall i | 0 <= i < |a| ensures a[i].(next := 0) == b[i].(next := 0) {
      assert cs[i].(next := 0) == cs2[i].(next := 0);
    }
  }

  lemma MissAlike(m: Moment, n: Moment, m': Moment, n': Moment, bad: set<nat>, b: nat, now: nat, e: int, e2: int,
                  v: int, v2: int)
    requires Alike(m, n) && Missed(m.entries, m'.entries, m.disk, m'.disk, bad, b, now, e, v)
      && Missed(n.entries, n'.entries, n.disk, n'.disk, bad, b, now, e2, v2)
    ensures e == e2 && m'.disk == n'.disk && |m'.entries| == |n'.entries|
      && forall i :: 0 <= i < |m'.entries| ==> m'.entries[i].(next := 0) == n'.entries[i].(next := 0)
  {
    hide Chosen, Replaced;
    SameChoice(m.entries, n.entries, v);
    ChosenOnce(n.entries, v, v2);
    if v != -1 {
      assert m.entries[v].(next := 0) == n.entries[v].(next := 0);
      ReplacedAlike(m.entries, n.entries, m'.entries, n'.entries, v, Fetched(m.entries[v], b, now, m.disk),
                    Fetched(n.entries[v], b, now, n.disk));
    }
  }

  lemma TurnedAlike(m: Moment, n: Moment, m': Moment, n': Moment, bad: set<nat>, b: nat, now: nat, e: int, e2: int)
    requires Alike(m, n) && m.index == n.index && Turned(m, b, now, e, m', bad) && Turned(n, b, now, e2, n', bad)
    ensures e == e2 && m'.disk == n'.disk && |m'.entries| == |n'.entries|
      && forall i :: 0 <= i < |m'.entries| ==> m'.entries[i].(next := 0) == n'.entries[i].(next := 0)
  {
    hide Missed, Replaced;
    if b in m.index {
      assert m.entries[e].(next := 0) == n.entries[e].(next := 0);
      ReplacedAlike(m.entries, n.entries, m'.entries, n'.entries, e, Touched(m.entries[e], now),
                    Touched(n.entries[e], now));
    } else {
      var v :| Missed(m.entries, m'.entries, m.disk, m'.disk, bad, b, now, e, v);
      var v2 :| Missed(n.entries, n'.entries, n.disk, n'.disk, bad, b, now, e2, v2);
      MissAlike(m, n, m', n', bad, b, now, e, e2, v, v2);
    }
  }

  lemma CleanAlike(m: Moment, n: Moment, m': Moment, n': Moment)
    requires Alike(m, n) && Cleaned(m.entries, m'.entries) && Cleaned(n.entries, n'.entries)
    ensures |m'.entries| == |n'.entries|
      && forall i :: 0 <= i < |m'.entries| ==> m'.entries[i].(next := 0) == n'.entries[i].(next := 0)
  {
    forall i | 0 <= i < |m'.entries| ensures m'.entries[i].(next := 0) == n'.entries[i].(next := 0) {
      assert m.entries[i].(next := 0) == n.entries[i].(next := 0);
    }
  }

  /** A request has one outcome: the same answer, and caches that are alike. */
  lemma StepDetermined(m: Moment, n: Moment, k: nat, op: Op, now: nat, a: Answer, b: Answer, m': Moment, n': Moment,
                       bad: set<nat>, timely: bool)
    requires Alike(m, n) && Sound(m, bad) && Sound(n, bad)
    requires Step(m, k, op, now, a, m', bad, timely) && Step(n, k, op, now, b, n', bad, timely)
    ensures a == b && Alike(m', n')
  {
    hide Sound, Turned, Settled, Obtained, Unobtainable, NoBuffer, Cleaned;
    SameIndex(m, n, bad);
    match op
    case Get(x) =>
      TurnedAlike(m, n, m', n', bad, x, now, EntryOf(a), EntryOf(b));
    case Sync =>
      CleanAlike(m, n, m', n');
      assert m'.disk == n'.disk;
    case Look(t) =>
    case Store(t, data) =>
      if t in m.holds && m.holds[t].entry < |m.entries| {
        assert m.entries[m.holds[t].entry].(next := 0) == n.entries[m.holds[t].entry].(next := 0);
      }
    case Release(t) =>
      if t in m.holds && m.holds[t].entry < |m.entries| {
        assert m.entries[m.holds[t].entry].(next := 0) == n.entries[m.holds[t].entry].(next := 0);
      }
  }

  /** So the requests and the clock determine every answer, and what the cache and the disk hold at every moment. */
  lemma {:induction false} RunDetermined(ops: seq<Op>, ticks: seq<nat>, answers: seq<Answer>, ms: seq<Moment>,
                                         answers2: seq<Answer>, ns: seq<Moment>, bad: set<nat>, timely: bool, k: nat)
    requires Trace(ops, ticks, answers, ms, bad, timely) && Trace(ops, ticks, answers2, ns, bad, timely)
    requires Alike(ms[0], ns[0]) && k <= |ops|
    ensures answers[..k] == answers2[..k] && Alike(ms[k], ns[k])
  {
    hide Step, Sound, AllKept, Alike;
    if k > 0 {
      RunDetermined(ops, ticks, answers, ms, answers2, ns, bad, timely, k - 1);
      StepDetermined(ms[k - 1], ns[k - 1], k - 1, ops[k - 1], ticks[k - 1], answers[k - 1], answers2[k - 1], ms[k],
                     ns[k], bad, timely);
      assert answers[..k] == answers[..k - 1] + [answers[k - 1]];
      assert answers2[..k] == answers2[..k - 1] + [answers2[k - 1]];
    }
  }

  // ----- what goes wrong -----

  const TWO_BLOCKS: Disk := map[0 := [0], 1 := [0]]

  /** A cache of one buffer, in which block 0 is held. */
  method HoldFirst(bad: set<nat>, now: nat) returns (c: Cache)
    requires now <= NEVER
    ensures fresh(c) && fresh(c.cache) && fresh(c.hashTable) && c.Valid() && c.bad == bad
      && c.disk == c.Blocks() == TWO_BLOCKS
    ensures c.cache.Length == 1 && c.cache[0].hasData && c.cache[0].valid && c.cache[0].blockNo == 0
    ensures c.cache[0].refcount == 1 && c.cache[0].tick == now
  {
    hide BucketsOk;
    c := new Cache(1, 1, TWO_BLOCKS, bad);
    ghost var cs := c.cache[..];
    assert Spare(cs[0]) && Chosen(cs, 0);
    NoneLost(cs, c.disk, bad, 0, TWO_BLOCKS);
    NoneChosen(cs, 0);
    hide IndexOk, View, Chosen, Loses;
    var a;
    ghost var v;
    a, v := c.Get(0, now);
  }

  /**
   * Held and let go at the tick that is also the sentinel, an entry is never given up: the
   * other block cannot be had.
   */
  method SentinelSticks() returns (c: Cache, e: int)
    ensures e == -1 && 1 in c.Blocks() && c.cache.Length == 1 && c.cache[0].refcount == 0
  {
    hide BucketsOk, View, Chosen, Loses, OnlyLost;
    c := HoldFirst({}, NEVER);
    c.Release(0);
    assert AllPinned(c.cache[..]) && 1 !in c.index;
    hide IndexOk;
    ViewKeys(c.cache[..], c.index, c.disk);
    ghost var v;
    e, v := c.Get(1, 0);
    ViewKeys(c.cache[..], c.index, c.disk);
  }

  /** The disk refuses to write block 0: what a client stored there is gone once the buffer is needed for block 1. */
  method LostWriteBack() returns (c: Cache, stored: Data)
    ensures 0 in c.Blocks() && c.Blocks()[0] != stored
  {
    hide BucketsOk, View;
    stored := [7];
    c := HoldFirst({0}, 1);
    c.Modify(0, stored);
    c.Release(0);
    ghost var cs := c.cache[..];
    assert Chosen(cs, 0) && Doomed(cs[0], c.disk, {0});
    assert Loses(cs, c.disk, {0}, 0) && 1 !in c.index;
    hide IndexOk, Chosen, Loses, Obtained, AllPinned;
    var b;
    ghost var v;
    b, v := c.Get(1, 2);
  }
}
