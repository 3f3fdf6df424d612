/** Runs of reads and writes on an ext2 volume, and the table of byte strings they act on as long as there is room. */
module Ext2Runs {
  import opened Bytes
  import opened Ext2Blocks
  import opened Ext2Layout
  import opened Ext2Steps
  import opened Ext2
  import opened Ext2Files

  type Files = map<nat, seq<byte>>

  datatype Request = Write(f: nat, offset: nat, data: seq<byte>) | Read(f: nat, offset: nat, size: nat)

  /** The table after a request. */
  function After(files: Files, q: Request): Files {
    if q.Write? && q.f in files then files[q.f := Overlay(files[q.f], q.offset, q.data)] else files
  }

  function AfterAll(files: Files, qs: seq<Request>): Files {
    if qs == [] then files else After(AfterAll(files, qs[..|qs| - 1]), qs[|qs| - 1])
  }

  /** What a request answers on the table: a read its bytes, a write nothing. */
  function Answer(files: Files, q: Request): seq<byte> {
    if q.Read? && q.f in files then Range(files[q.f], q.offset, q.size) else []
  }

  /** The requests a caller may make: existing files, sizes that fit i_size and an int. */
  predicate Allowed(files: set<nat>, q: Request) {
    q.f in files && (q.Write? ==> q.offset + |q.data| < 0x1_0000_0000 && |q.data| < 0x8000_0000)
  }

  ghost function Table(d: Disk, ins: Inodes, bs: nat): Files {
    map f | f in ins :: File(d, ins, f, bs)
  }

  ghost predicate AllClean(d: Disk, ins: Inodes, bs: nat) {
    forall f :: f in ins ==> CleanTail(d, ins, f, bs)
  }

  /** Between requests: everything is on disk. */
  ghost predicate Ready(fs: Volume)
    reads fs
  {
    fs.Valid() && fs.Mounted() && fs.AllStored()
  }

  /** There is room on the volume for the write. */
  ghost predicate HasRoom(d: Disk, ins: Inodes, sb: nat, bs: nat, q: Request) {
    q.Write? && q.f in ins ==>
      Room(d, ins, q.f, ins[q.f], FirstBlock(q.offset, bs), EndBlock(q.offset, |q.data|, bs), sb, bs)
  }

  lemma TableAfterWrite(d: Disk, ins: Inodes, d': Disk, ins': Inodes, bs: nat, f: nat, inode': Inode, offset: nat,
                        data: seq<byte>)
    requires 0 < bs && f in ins && ins' == ins[f := inode'] && SizeOf(inode') == Max(SizeOf(ins[f]), offset + |data|)
    requires Written(d, ins, d', ins', bs, f, offset, data) && OthersSame(d, ins, d', ins', bs, f)
    requires (forall j: nat :: |Content(d, ins, f, j, bs)| == bs) && AllClean(d, ins, bs)
    ensures Table(d', ins', bs) == Table(d, ins, bs)[f := Overlay(File(d, ins, f, bs), offset, data)]
      && AllClean(d', ins', bs)
  {
    hide Content, Written, SizeOf, OthersSame, File, Overlay, ByteAt, CleanTail;
    WriteIsOverlay(d, ins, d', ins', bs, f, offset, data);
    forall g | g in ins && g != f ensures File(d', ins', g, bs) == File(d, ins, g, bs) && CleanTail(d', ins', g, bs) {
      OthersRead(d, ins, d', ins', bs, f, g, inode');
      OthersClean(d, ins, d', ins', bs, f, g, inode');
    }
  }

  lemma OthersClean(d: Disk, ins: Inodes, d': Disk, ins': Inodes, bs: nat, f: nat, g: nat, inode': Inode)
    requires OthersSame(d, ins, d', ins', bs, f) && ins' == ins[f := inode'] && g != f && CleanTail(d, ins, g, bs)
    ensures CleanTail(d', ins', g, bs)
  {
    hide Content, SizeOf, File, ByteAt, OthersSame;
    OthersRead(d, ins, d', ins', bs, f, g, inode');
    forall k: nat ensures ByteAt(d', ins', g, k, bs) == ByteAt(d, ins, g, k, bs) {
      SameByte(d, ins, d', ins', bs, f, g, k);
    }
  }

  lemma WholeOutcome(d: Disk, ins: Inodes, sb: nat, d': Disk, ins': Inodes, bs: nat, f: nat, inode: Inode,
                     offset: nat, data: seq<byte>, done: nat, lost: bool, hole: nat)
    requires Outcome(d, ins, sb, d', ins', bs, f, inode, offset, data, done, lost, hole)
    requires Room(d, ins, f, inode, FirstBlock(offset, bs), EndBlock(offset, |data|, bs), sb, bs)
    ensures done == |data| && !lost && Written(d, ins, d', ins', bs, f, offset, data)
      && OthersSame(d, ins, d', ins', bs, f)
  {
    hide Room, Written, OthersSame, At, PlaceOf, FirstBlock, EndBlock;
    assert Prefix(data, |data|) == data;
  }

  lemma TableHas(d: Disk, ins: Inodes, bs: nat, f: nat)
    requires f in ins
    ensures f in Table(d, ins, bs) && Table(d, ins, bs)[f] == File(d, ins, f, bs)
  {
  }

  // ----- one request -----

  /** A volume in the middle of a run. */
  datatype Moment = Moment(d: Disk, ins: Inodes, sb: nat, free: seq<nat>, owned: set<nat>)

  ghost function Now(fs: Volume): Moment
    reads fs
  {
    Moment(fs.disk, fs.ins, fs.sbFree, fs.groupFree, fs.owned)
  }

  /** What a request returns: bytes read, or the count a write reports. */
  datatype Reply = Bytes(data: seq<byte>) | Count(n: int)

  /** The count a write of `n` bytes reports when `done` were taken. */
  function Reports(done: nat, n: nat): int { if 0 < done || n == 0 then done else -1 }

  /** A write that took `done` bytes: what it reports, and the pointers, blocks, sizes and free blocks it leaves. */
  ghost predicate Writes(m: Moment, q: Request, reply: Reply, m': Moment, bs: nat, done: nat, lost: bool, hole: nat) {
    && q.Write? && q.f in m.ins && q.f in m'.ins && m'.ins == m.ins[q.f := m'.ins[q.f]]
    && reply == Count(Reports(done, |q.data|))
    && Outcome(m.d, m.ins, m.sb, m'.d, m'.ins, bs, q.f, m.ins[q.f], q.offset, q.data, done, lost, hole)
    && Effect(m.d, m.ins, m.sb, m'.d, m'.ins, m'.sb, bs, q.f, m.ins[q.f], m'.ins[q.f], q.offset, q.data, done)
    && SectorsCounted(m.d, m.ins, bs, q.f, m.ins[q.f], m'.ins[q.f], FirstBlock(q.offset, bs),
                      Reach(q.offset, |q.data|, done, bs))
    && SizeOf(m'.ins[q.f]) ==
      if done == |q.data| then Max(SizeOf(m.ins[q.f]), q.offset + |q.data|) else SizeOf(m.ins[q.f])
  }

  /** A request leads from one volume to the next. */
  ghost predicate Step(m: Moment, q: Request, reply: Reply, m': Moment, bs: nat) {
    if q.Read? then m' == m && reply == Bytes(Range(File(m.d, m.ins, q.f, bs), q.offset, q.size))
    else exists done, lost, hole :: Writes(m, q, reply, m', bs, done, lost, hole)
  }

  /** The write reports fewer bytes than it was given. */
  predicate Short(q: Request, reply: Reply) { q.Write? && reply != Count(|q.data|) }

  /** The last write came short. */
  predicate Cut(qs: seq<Request>, replies: seq<Reply>) {
    0 < |replies| <= |qs| && Short(qs[|replies| - 1], replies[|replies| - 1])
  }

  /** The volume is consistent, and all inodes are on disk. */
  ghost predicate Settled(l: Layout, kind: map<nat, Use>, m: Moment) {
    Good(l, kind, m.d, m.owned, m.free, m.sb, m.ins) && StoredBut(l, kind, m.d, m.ins, 0)
  }

  /** Opening a file and writing to it. */
  method Store(fs: Volume, q: Request) returns (reply: Reply)
    requires Ready(fs) && Allowed(fs.ins.Keys, q) && q.Write?
    modifies fs
    ensures fs.Valid() && fs.Mounted() && fs.ins.Keys == old(fs.ins.Keys) && reply.Count?
    ensures !Short(q, reply) ==> Ready(fs) && fs.Synced()
    ensures Step(old(Now(fs)), q, reply, Now(fs), fs.layout.bs)
  {
    hide Good, StoredBut, SizeOf, Outcome, Flushed, Effect, SectorsCounted;
    ghost var m := Now(fs);
    var inode := fs.ReadInode(q.f);
    StoredWeaker(fs.layout, fs.kind, fs.disk, fs.ins, q.f);
    var inode', r, done, lost, hole := WriteFile(fs, q.f, inode, q.offset, q.data);
    OutcomeBound(m.d, m.ins, m.sb, fs.disk, fs.ins, fs.layout.bs, q.f, inode, q.offset, q.data, done, lost, hole);
    reply := Count(r);
    assert Writes(m, q, reply, Now(fs), fs.layout.bs, done, lost, hole);
  }

  /** Opening a file and reading from it. */
  method Fetch(fs: Volume, q: Request) returns (reply: Reply)
    requires Ready(fs) && Allowed(fs.ins.Keys, q) && q.Read?
    modifies fs`blockBuf, fs`indBuf
    ensures Ready(fs) && Step(old(Now(fs)), q, reply, Now(fs), fs.layout.bs) && reply.Bytes?
    ensures old(fs.Synced()) ==> fs.Synced()
  {
    hide Good, StoredBut, Range, File, Flushed;
    var inode := fs.ReadInode(q.f);
    var bytes := ReadFile(fs, inode, q.offset, q.size, q.f);
    reply := Bytes(bytes);
  }

  // ----- runs -----

  /**
   * The replies tell a chain of steps through consistent volumes, cut short at most by a write
   * that reports less than it was given.
   */
  ghost predicate Trace(l: Layout, kind: map<nat, Use>, qs: seq<Request>, replies: seq<Reply>, moments: seq<Moment>) {
    && |replies| <= |qs| && |moments| == |replies| + 1
    && (forall k :: 0 <= k < |replies| ==> Step(moments[k], qs[k], replies[k], moments[k + 1], l.bs))
    && (forall k :: 0 <= k < |replies| ==> Settled(l, kind, moments[k]))
    && (forall k :: 0 <= k < |replies| - 1 ==> !Short(qs[k], replies[k]))
  }

  lemma TraceNone(l: Layout, kind: map<nat, Use>, qs: seq<Request>, m: Moment)
    ensures Trace(l, kind, qs, [], [m]) && !Cut(qs, [])
  {
  }

  lemma TraceMore(l: Layout, kind: map<nat, Use>, qs: seq<Request>, replies: seq<Reply>, moments: seq<Moment>,
                  reply: Reply, m: Moment)
    requires Trace(l, kind, qs, replies, moments) && |replies| < |qs| && Settled(l, kind, moments[|replies|])
    requires Step(moments[|replies|], qs[|replies|], reply, m, l.bs)
    requires !Cut(qs, replies)
    ensures Cut(qs, replies + [reply]) <==> Short(qs[|replies|], reply)
    ensures Trace(l, kind, qs, replies + [reply], moments + [m])
  {
    hide Step, Settled, Short;
  }

  /**
   * Any run of reads and writes: every request is a step from the volume the one before it
   * left, and only a write that reports fewer bytes than it was given ends it early.
   */
  method Run(fs: Volume, qs: seq<Request>) returns (replies: seq<Reply>, ghost moments: seq<Moment>)
    requires Ready(fs) && forall q :: q in qs ==> Allowed(fs.ins.Keys, q)
    modifies fs
    ensures fs.Valid() && Trace(fs.layout, fs.kind, qs, replies, moments) && |moments| == |replies| + 1
    ensures moments[0] == old(Now(fs)) && moments[|replies|] == Now(fs)
    ensures |replies| < |qs| ==> Cut(qs, replies)
    ensures !Cut(qs, replies) ==> Ready(fs) && (old(fs.Synced()) ==> fs.Synced())
  {
    hide Good, StoredBut, Step, Short, Flushed, Cut, Trace;
    replies, moments := [], [Now(fs)];
    TraceNone(fs.layout, fs.kind, qs, Now(fs));
    while |replies| < |qs|
      invariant |replies| <= |qs| && Ready(fs) && fs.ins.Keys == old(fs.ins.Keys) && (old(fs.Synced()) ==> fs.Synced())
      invariant Trace(fs.layout, fs.kind, qs, replies, moments) && |moments| == |replies| + 1
      invariant moments[0] == old(Now(fs)) && moments[|replies|] == Now(fs)
      invariant !Cut(qs, replies)
      decreases |qs| - |replies|
    {
      var q := qs[|replies|];
      var reply;
      if q.Read? {
        reply := Fetch(fs, q);
        NeverShort(q, reply);
      } else {
        reply := Store(fs, q);
      }
      TraceMore(fs.layout, fs.kind, qs, replies, moments, reply, Now(fs));
      replies, moments := replies + [reply], moments + [Now(fs)];
      if q.Write? && reply.n != |q.data| {
        ItIsShort(q, reply);
        return;
      }
      ItIsWhole(q, reply);
    }
  }

  lemma NeverShort(q: Request, reply: Reply)
    requires q.Read?
    ensures !Short(q, reply)
  {
  }

  lemma ItIsShort(q: Request, reply: Reply)
    requires q.Write? && reply.Count? && reply.n != |q.data|
    ensures Short(q, reply)
  {
  }

  lemma ItIsWhole(q: Request, reply: Reply)
    requires q.Write? ==> reply.Count? && reply.n == |q.data|
    ensures !Short(q, reply)
  {
  }

  // ----- the table of files -----

  /** What the table of files returns. */
  function TableReply(files: Files, q: Request): Reply {
    if q.Read? then Bytes(Answer(files, q)) else Count(|q.data|)
  }

  /** There is room on the volume for the request. */
  ghost predicate RoomAt(m: Moment, q: Request, bs: nat) { q.f in m.ins && HasRoom(m.d, m.ins, m.sb, bs, q) }

  /** A request that has room does to the volume what it does to the table. */
  lemma StepIsTable(l: Layout, kind: map<nat, Use>, m: Moment, q: Request, reply: Reply, m': Moment)
    requires Step(m, q, reply, m', l.bs) && RoomAt(m, q, l.bs) && AllClean(m.d, m.ins, l.bs) && Settled(l, kind, m)
    ensures reply == TableReply(Table(m.d, m.ins, l.bs), q)
    ensures Table(m'.d, m'.ins, l.bs) == After(Table(m.d, m.ins, l.bs), q) && AllClean(m'.d, m'.ins, l.bs)
  {
    hide SectorsCounted, Good, StoredBut, SizeOf, Outcome, Effect, Room, Table, AllClean, Content, Overlay, EndBlock,
         FirstBlock, Range, File;
    TableHas(m.d, m.ins, l.bs, q.f);
    if q.Write? {
      var done, lost, hole :| Writes(m, q, reply, m', l.bs, done, lost, hole);
      WholeOutcome(m.d, m.ins, m.sb, m'.d, m'.ins, l.bs, q.f, m.ins[q.f], q.offset, q.data, done, lost, hole);
      ContentSizes(l, kind, m.d, m.owned, m.free, m.sb, m.ins, q.f);
      TableAfterWrite(m.d, m.ins, m'.d, m'.ins, l.bs, q.f, m'.ins[q.f], q.offset, q.data);
    }
  }

  /** A write that had room made these bytes of the volume. */
  lemma WroteBytes(l: Layout, kind: map<nat, Use>, m: Moment, q: Request, reply: Reply, m': Moment, g: nat, k: nat)
    requires q.Write? && Step(m, q, reply, m', l.bs) && RoomAt(m, q, l.bs) && Settled(l, kind, m)
    ensures reply == Count(|q.data|) && m'.ins == m.ins[q.f := m'.ins[q.f]]
      && SizeOf(m'.ins[q.f]) == Max(SizeOf(m.ins[q.f]), q.offset + |q.data|)
    ensures ByteAt(m'.d, m'.ins, g, k, l.bs) ==
      if g == q.f && q.offset <= k < q.offset + |q.data| then q.data[k - q.offset] else ByteAt(m.d, m.ins, g, k, l.bs)
  {
    hide SectorsCounted, Good, StoredBut, SizeOf, Outcome, Effect, Room, Content, EndBlock, FirstBlock, Written,
         OthersSame, ByteAt;
    var done, lost, hole :| Writes(m, q, reply, m', l.bs, done, lost, hole);
    WholeOutcome(m.d, m.ins, m.sb, m'.d, m'.ins, l.bs, q.f, m.ins[q.f], q.offset, q.data, done, lost, hole);
    ContentSizes(l, kind, m.d, m.owned, m.free, m.sb, m.ins, q.f);
    if g == q.f {
      WrittenByte(m.d, m.ins, m'.d, m'.ins, l.bs, g, q.offset, q.data, k);
    } else {
      SameByte(m.d, m.ins, m'.d, m'.ins, l.bs, q.f, g, k);
    }
  }

  /** A read of the bytes just written returns them. */
  lemma ReadsBack(l: Layout, kind: map<nat, Use>, m: Moment, f: nat, offset: nat, data: seq<byte>, r: Reply, m': Moment,
                  reply: Reply, m2: Moment)
    requires Step(m, Write(f, offset, data), r, m', l.bs) && RoomAt(m, Write(f, offset, data), l.bs)
      && Settled(l, kind, m)
    requires Step(m', Read(f, offset, |data|), reply, m2, l.bs)
    ensures r == Count(|data|) && reply == Bytes(data)
  {
    hide Good, StoredBut, SizeOf, RoomAt, Writes, ByteAt, Settled;
    var q, file := Write(f, offset, data), File(m'.d, m'.ins, f, l.bs);
    WroteBytes(l, kind, m, q, r, m', f, 0);
    forall k | 0 <= k < |data| ensures file[offset + k] == data[k] {
      WroteBytes(l, kind, m, q, r, m', f, offset + k);
    }
    assert data == [] || file[offset..offset + |data|] == data;
  }

  /** A read of other bytes, or of another file, returns what it returned before. */
  lemma ReadsElsewhere(l: Layout, kind: map<nat, Use>, m: Moment, q: Request, r: Reply, m': Moment, p: Request,
                       before: Reply, m1: Moment, after: Reply, m2: Moment)
    requires q.Write? && Step(m, q, r, m', l.bs) && RoomAt(m, q, l.bs) && Settled(l, kind, m)
    requires p.Read? && p.f in m.ins && Step(m, p, before, m1, l.bs) && Step(m', p, after, m2, l.bs)
    requires p.f != q.f
      || (p.offset + p.size <= SizeOf(m.ins[p.f])
          && (p.offset + p.size <= q.offset || q.offset + |q.data| <= p.offset))
    ensures after == before
  {
    hide Good, StoredBut, SizeOf, RoomAt, Writes, ByteAt, Settled;
    var a, b := File(m.d, m.ins, p.f, l.bs), File(m'.d, m'.ins, p.f, l.bs);
    WroteBytes(l, kind, m, q, r, m', p.f, 0);
    forall k | 0 <= k < |a| && (p.f != q.f || p.offset <= k < p.offset + p.size) ensures b[k] == a[k] {
      WroteBytes(l, kind, m, q, r, m', p.f, k);
    }
    if p.f != q.f {
      assert a == b;
    } else {
      assert p.offset < |a| ==> a[p.offset..p.offset + p.size] == b[p.offset..p.offset + p.size];
    }
  }

  /**
   * As long as there is room, a run returns what the table of byte strings returns, and the
   * volume shows the table's strings; whether there is room is said of the volume each
   * request meets.
   */
  lemma {:induction false} RunIsTable(l: Layout, kind: map<nat, Use>, qs: seq<Request>, replies: seq<Reply>,
                                      moments: seq<Moment>, n: nat)
    requires Trace(l, kind, qs, replies, moments) && n <= |replies| && AllClean(moments[0].d, moments[0].ins, l.bs)
    requires forall k :: 0 <= k < n ==> RoomAt(moments[k], qs[k], l.bs)
    ensures var files := Table(moments[0].d, moments[0].ins, l.bs);
            && (forall k :: 0 <= k < n ==> replies[k] == TableReply(AfterAll(files, Start(qs, k)), qs[k]))
            && Table(moments[n].d, moments[n].ins, l.bs) == AfterAll(files, Start(qs, n))
            && AllClean(moments[n].d, moments[n].ins, l.bs)
  {
    hide Step, Settled, Table, AllClean, RoomAt, AfterAll, After, TableReply, Short;
    var files := Table(moments[0].d, moments[0].ins, l.bs);
    if n == 0 {
      AfterNone(files, qs);
    } else {
      RunIsTable(l, kind, qs, replies, moments, n - 1);
      StepIsTable(l, kind, moments[n - 1], qs[n - 1], replies[n - 1], moments[n]);
      AfterOne(files, qs, n - 1);
    }
  }

  /** The volume a request meets determines its reply, the size of the file, and how many blocks are then free. */
  lemma ReplyDetermined(l: Layout, kind: map<nat, Use>, m: Moment, q: Request, r1: Reply, m1: Moment, r2: Reply,
                        m2: Moment)
    requires Settled(l, kind, m) && Step(m, q, r1, m1, l.bs) && Step(m, q, r2, m2, l.bs)
    ensures r1 == r2 && m1.sb == m2.sb && m1.ins.Keys == m2.ins.Keys
    ensures q.Write? ==> q.f in m1.ins && q.f in m2.ins && SizeOf(m1.ins[q.f]) == SizeOf(m2.ins[q.f])
  {
    hide SectorsCounted, Good, StoredBut, SizeOf, Outcome, Effect, Range, File;
    ContentSizes(l, kind, m.d, m.owned, m.free, m.sb, m.ins, q.f);
    if q.Write? {
      var done1, lost1, hole1 :| Writes(m, q, r1, m1, l.bs, done1, lost1, hole1);
      var done2, lost2, hole2 :| Writes(m, q, r2, m2, l.bs, done2, lost2, hole2);
      OutcomeBound(m.d, m.ins, m.sb, m1.d, m1.ins, l.bs, q.f, m.ins[q.f], q.offset, q.data, done1, lost1, hole1);
      OutcomeBound(m.d, m.ins, m.sb, m2.d, m2.ins, l.bs, q.f, m.ins[q.f], q.offset, q.data, done2, lost2, hole2);
      StopsOnce(m.d, m.ins, m.sb, l.bs, q.f, m.ins[q.f], q.offset, q.data, m1.d, m1.ins, m1.sb, m1.ins[q.f], done1,
                m2.d, m2.ins, m2.sb, m2.ins[q.f], done2);
    }
  }

  /** A write comes short exactly if some hole of its range finds no free block. */
  lemma ShortIs(m: Moment, q: Request, reply: Reply, m': Moment, bs: nat)
    requires Step(m, q, reply, m', bs) && q.Write? && q.f in m.ins
    ensures Short(q, reply) <==>
      !Reported(m.d, m.ins, q.f, m.ins[q.f], FirstBlock(q.offset, bs), EndBlock(q.offset, |q.data|, bs), m.sb, bs)
  {
    hide At, PlaceOf, Room, Reported, Written, OthersSame, EndBlock, FirstBlock, Effect;
    var done, lost, hole :| Writes(m, q, reply, m', bs, done, lost, hole);
  }

  function Start(qs: seq<Request>, k: nat): seq<Request> { if k <= |qs| then qs[..k] else qs }

  lemma AfterNone(files: Files, qs: seq<Request>)
    ensures AfterAll(files, Start(qs, 0)) == files
  {
  }

  lemma AfterOne(files: Files, qs: seq<Request>, k: nat)
    requires k < |qs|
    ensures AfterAll(files, Start(qs, k + 1)) == After(AfterAll(files, Start(qs, k)), qs[k])
  {
    var t := Start(qs, k + 1);
    assert t[..|t| - 1] == Start(qs, k);
  }
}
