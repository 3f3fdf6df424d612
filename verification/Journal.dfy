/**
 The write-ahead journal (kernel/fs/journal.c) on a disk that can lose power
 after any single-sector write.

 A sector is 128 little-endian 32-bit words.  `Disk.writesLeft` is the number of
 sector writes the power supply still allows: once it is zero the device ignores
 every further write, which is what a crash looks like to the next boot.
 */
module Journal {

  const JOURNAL_MAGIC: nat := 0x4A524E4C
  const JOURNAL_MAX_BLOCKS: nat := 16
  const JOURNAL_START_LBA: nat := 65536
  const SECTORS_PER_BLOCK: nat := 8
  const JOURNAL_SECTORS: nat := 1 + JOURNAL_MAX_BLOCKS * SECTORS_PER_BLOCK

  type Word32 = x: nat | x < 0x1_0000_0000
  type Sector = s: seq<Word32> | |s| == 128 witness seq(128, _ => 0)
  const ZERO_SECTOR: Sector := seq(128, _ => 0)
  type Block = b: seq<Sector> | |b| == 8 witness ZERO_BLOCK
  const ZERO_BLOCK: seq<Sector> := seq<Sector>(8, _ => ZERO_SECTOR)
  type Image = map<nat, Sector>

  datatype Write = Write(lba: nat, data: Sector)

  /** One logged block of a transaction: where it belongs and what it holds. */
  datatype Entry = Entry(target: Word32, data: Block)

  // ----- sector writes -----

  function Apply(d: Image, ws: seq<Write>): Image
    decreases |ws|
  {
    if ws == [] then d else Apply(d[ws[0].lba := ws[0].data], ws[1..])
  }

  ghost predicate Touches(ws: seq<Write>, lba: nat) {
    exists i :: 0 <= i < |ws| && ws[i].lba == lba
  }

  lemma {:induction false} ApplyConcat(d: Image, a: seq<Write>, b: seq<Write>)
    ensures Apply(d, a + b) == Apply(Apply(d, a), b)
    decreases |a|
  {
    if a == [] {
      assert a + b == b;
    } else {
      assert (a + b)[1..] == a[1..] + b;
      ApplyConcat(d[a[0].lba := a[0].data], a[1..], b);
    }
  }

  lemma {:induction false} ApplyOne(d: Image, w: Write)
    ensures Apply(d, [w]) == d[w.lba := w.data]
  {
    assert [w][1..] == [];
  }

  lemma {:induction false} ApplyFrame(d: Image, ws: seq<Write>, lba: nat)
    requires !Touches(ws, lba)
    ensures lba in Apply(d, ws) <==> lba in d
    ensures lba in d ==> Apply(d, ws)[lba] == d[lba]
    decreases |ws|
  {
    if ws != [] {
      assert ws[0].lba != lba;
      forall i | 0 <= i < |ws[1..]| ensures ws[1..][i].lba != lba {
        assert ws[1..][i] == ws[i + 1];
      }
      ApplyFrame(d[ws[0].lba := ws[0].data], ws[1..], lba);
    }
  }

  lemma {:induction false} ApplyKeys(d: Image, ws: seq<Write>)
    ensures d.Keys <= Apply(d, ws).Keys
    decreases |ws|
  {
    if ws != [] {
      ApplyKeys(d[ws[0].lba := ws[0].data], ws[1..]);
    }
  }

  /** Two images that differ only where `ws` writes become equal once `ws` is applied. */
  lemma {:induction false} ApplyOverwrites(d: Image, e: Image, ws: seq<Write>)
    requires forall lba: nat :: !Touches(ws, lba) ==>
      (lba in d <==> lba in e) && (lba in d && lba in e ==> d[lba] == e[lba])
    ensures Apply(d, ws) == Apply(e, ws)
    decreases |ws|
  {
    if ws == [] {
      forall lba | lba in d || lba in e ensures lba in d && lba in e && d[lba] == e[lba] {
        assert !Touches(ws, lba);
      }
      assert d == e;
    } else {
      var w := ws[0];
      var d1, e1 := d[w.lba := w.data], e[w.lba := w.data];
      forall lba: nat | !Touches(ws[1..], lba)
        ensures (lba in d1 <==> lba in e1) && (lba in d1 && lba in e1 ==> d1[lba] == e1[lba])
      {
        if lba != w.lba {
          forall i | 0 <= i < |ws| ensures ws[i].lba != lba {
            if i > 0 { assert ws[1..][i - 1] == ws[i]; }
          }
          assert !Touches(ws, lba);
        }
      }
      ApplyOverwrites(d1, e1, ws[1..]);
    }
  }

  /** Redo: however many of the writes already reached the disk, doing all of them again gives the same disk. */
  lemma {:induction false} RedoIdempotent(d: Image, ws: seq<Write>, k: nat)
    requires k <= |ws|
    ensures Apply(Apply(d, ws[..k]), ws) == Apply(d, ws)
  {
    var e := Apply(d, ws[..k]);
    forall lba: nat | !Touches(ws, lba)
      ensures (lba in d <==> lba in e) && (lba in d && lba in e ==> d[lba] == e[lba])
    {
      assert !Touches(ws[..k], lba) by {
        forall i | 0 <= i < |ws[..k]| ensures ws[..k][i].lba != lba { assert ws[..k][i] == ws[i]; }
      }
      ApplyFrame(d, ws[..k], lba);
    }
    ApplyOverwrites(d, e, ws);
  }

  // ----- layout of the journal area -----

  /** The 32-bit product `target * 8` of the source, wrap-around included. */
  function FinalLba(target: Word32): nat { target * 8 % 0x1_0000_0000 }

  predicate InJournal(lba: nat) { JOURNAL_START_LBA <= lba < JOURNAL_START_LBA + JOURNAL_SECTORS }

  /** The block an entry names: its target, but for the three bits the 32-bit product loses. */
  function BlockOf(target: Word32): nat { target % 0x2000_0000 }

  /** Sector `j` of the block an entry names. */
  function SectorOf(target: Word32, j: nat): nat { 8 * BlockOf(target) + j }

  /** No sector of the block named by `target` is in the journal area. */
  predicate SafeTarget(target: Word32) { forall j :: 0 <= j < 8 ==> !InJournal(SectorOf(target, j)) }

  predicate SafeTxn(t: seq<Entry>) {
    0 < |t| <= JOURNAL_MAX_BLOCKS && forall i :: 0 <= i < |t| ==> SafeTarget(t[i].target)
  }

  /** The image contains every sector of the journal area. */
  ghost predicate HasJournal(d: Image) {
    forall lba: nat :: InJournal(lba) ==> lba in d
  }

  function Header(t: seq<Entry>, seqNo: Word32, committed: Word32): (h: Sector)
    requires |t| <= JOURNAL_MAX_BLOCKS
  {
    [JOURNAL_MAGIC, seqNo, |t|, committed]
    + seq(|t|, i requires 0 <= i < |t| => t[i].target)
    + seq(124 - |t|, _ => 0)
  }

  function HeaderWrite(t: seq<Entry>, seqNo: Word32, committed: Word32): Write
    requires |t| <= JOURNAL_MAX_BLOCKS
  {
    Write(JOURNAL_START_LBA, Header(t, seqNo, committed))
  }

  function BlockWrites(lba: nat, b: Block): seq<Write> {
    seq(8, j requires 0 <= j < 8 => Write(lba + j, b[j]))
  }

  /** Copies of the blocks of `t` placed one after the other from `lba` on. */
  function LogWrites(t: seq<Entry>, lba: nat): (ws: seq<Write>)
    ensures |ws| == 8 * |t|
  {
    if t == [] then [] else BlockWrites(lba, t[0].data) + LogWrites(t[1..], lba + 8)
  }

  /** The blocks of `t` written where they belong. */
  function HomeWrites(t: seq<Entry>): (ws: seq<Write>)
    ensures |ws| == 8 * |t|
  {
    if t == [] then [] else BlockWrites(FinalLba(t[0].target), t[0].data) + HomeWrites(t[1..])
  }

  /** The writes up to and including the commit record. */
  function AheadWrites(t: seq<Entry>, seqNo: Word32): (ws: seq<Write>)
    requires |t| <= JOURNAL_MAX_BLOCKS
    ensures |ws| == 2 + 8 * |t|
  {
    [HeaderWrite(t, seqNo, 0)] + LogWrites(t, JOURNAL_START_LBA + 1) + [HeaderWrite(t, seqNo, 1)]
  }

  /** Every sector write of journal_commit, in order. */
  function CommitWrites(t: seq<Entry>, seqNo: Word32): (ws: seq<Write>)
    requires |t| <= JOURNAL_MAX_BLOCKS
    ensures |ws| == 3 + 16 * |t|
  {
    AheadWrites(t, seqNo) + (HomeWrites(t) + [HeaderWrite(t, seqNo, 2)])
  }

  /** The header on disk names a transaction that was committed and not yet marked applied. */
  predicate Pending(d: Image)
    requires HasJournal(d)
  {
    assert InJournal(JOURNAL_START_LBA);
    d[JOURNAL_START_LBA][0] == JOURNAL_MAGIC && d[JOURNAL_START_LBA][3] == 1
  }

  function LoggedBlock(d: Image, i: nat): Block
    requires HasJournal(d) && i < JOURNAL_MAX_BLOCKS
  {
    seq(8, j requires 0 <= j < 8 =>
          assert InJournal(JOURNAL_START_LBA + 1 + 8 * i + j); d[JOURNAL_START_LBA + 1 + 8 * i + j])
  }

  function LoggedCount(d: Image): (n: nat)
    requires HasJournal(d)
    ensures n <= JOURNAL_MAX_BLOCKS
  {
    assert InJournal(JOURNAL_START_LBA);
    var n := d[JOURNAL_START_LBA][2];
    if n < JOURNAL_MAX_BLOCKS then n else JOURNAL_MAX_BLOCKS
  }

  /** The transaction recovery reads back from the journal area. */
  function Logged(d: Image): (t: seq<Entry>)
    requires HasJournal(d)
    ensures |t| == LoggedCount(d)
  {
    assert InJournal(JOURNAL_START_LBA);
    seq(LoggedCount(d), i requires 0 <= i < LoggedCount(d) => Entry(d[JOURNAL_START_LBA][4 + i], LoggedBlock(d, i)))
  }

  /** A pending journal names no block inside the journal area. */
  ghost predicate SafeJournal(d: Image) {
    HasJournal(d) && (Pending(d) ==> forall i :: 0 <= i < |Logged(d)| ==> SafeTarget(Logged(d)[i].target))
  }

  /** Every sector write of journal_recover, in order. */
  function RecoverWrites(d: Image): (ws: seq<Write>)
    requires HasJournal(d)
    ensures Pending(d) ==> |ws| == 8 * LoggedCount(d) + 1
  {
    if Pending(d) then
      assert InJournal(JOURNAL_START_LBA);
      HomeWrites(Logged(d)) + [Write(JOURNAL_START_LBA, d[JOURNAL_START_LBA][3 := 2])]
    else []
  }

  function Recovered(d: Image): Image
    requires HasJournal(d)
  {
    Apply(d, RecoverWrites(d))
  }

  /** What a client of the disk cares about: everything outside the journal area. */
  function Home(d: Image): Image {
    map lba | lba in d && !InJournal(lba) :: d[lba]
  }

  // ----- a transaction on blocks -----

  /** The last entry for block `b`; -1 for none. */
  function Last(t: seq<Entry>, b: nat): (i: int)
    ensures -1 <= i < |t| && (i >= 0 ==> BlockOf(t[i].target) == b)
    ensures forall j :: i < j < |t| ==> BlockOf(t[j].target) != b
  {
    if t == [] then -1
    else if BlockOf(t[|t| - 1].target) == b then |t| - 1
    else Last(t[..|t| - 1], b)
  }

  /** The sectors of the blocks a transaction names. */
  ghost function Sectors(t: seq<Entry>): set<nat> {
    set i, j | 0 <= i < |t| && 0 <= j < 8 :: SectorOf(t[i].target, j)
  }

  /** A disk on which every block of the transaction has taken its place: of several for one block, the last. */
  ghost function Placed(d: Image, t: seq<Entry>): Image {
    d + map lba | lba in Sectors(t) && Last(t, lba / 8) >= 0 :: t[Last(t, lba / 8)].data[lba % 8]
  }

  /** What a sector then holds. */
  lemma PlacedHolds(d: Image, t: seq<Entry>, lba: nat)
    ensures lba in Placed(d, t) <==> lba in d || Last(t, lba / 8) >= 0
    ensures Last(t, lba / 8) >= 0 ==> Placed(d, t)[lba] == t[Last(t, lba / 8)].data[lba % 8]
    ensures Last(t, lba / 8) < 0 && lba in d ==> Placed(d, t)[lba] == d[lba]
  {
    var i := Last(t, lba / 8);
    if i >= 0 {
      assert lba == SectorOf(t[i].target, lba % 8);
    }
  }

  predicate LastOfItsBlock(t: seq<Entry>, i: nat) {
    i < |t| && forall k :: i < k < |t| ==> t[k].target != t[i].target
  }

  /** Sector `j` of a block the transaction names is that of its last entry; every other sector is as before. */
  lemma PlacedAt(d: Image, t: seq<Entry>, lba: nat)
    requires forall i :: 0 <= i < |t| ==> t[i].target < 0x2000_0000
    ensures forall i, j :: 0 <= i < |t| && 0 <= j < 8 && lba == 8 * t[i].target + j && LastOfItsBlock(t, i) ==>
              lba in Placed(d, t) && Placed(d, t)[lba] == t[i].data[j]
    ensures (forall i :: 0 <= i < |t| ==> !(8 * t[i].target <= lba < 8 * t[i].target + 8)) ==>
              (lba in Placed(d, t) <==> lba in d) && (lba in d ==> Placed(d, t)[lba] == d[lba])
  {
    hide Placed;
    PlacedHolds(d, t, lba);
    forall i, j | 0 <= i < |t| && 0 <= j < 8 && lba == 8 * t[i].target + j && LastOfItsBlock(t, i)
      ensures lba in Placed(d, t) && Placed(d, t)[lba] == t[i].data[j]
    {
      assert lba / 8 == t[i].target == BlockOf(t[i].target) && lba % 8 == j;
      var m := Last(t, lba / 8);
      assert m >= i;
      assert BlockOf(t[m].target) == t[m].target;
    }
  }

  /** The first `n` sectors of a block written from `lba` on. */
  lemma {:induction false} BlockLands(d: Image, lba: nat, b: Block, n: nat)
    requires n <= 8
    ensures var e := Apply(d, BlockWrites(lba, b)[..n]);
            forall x: nat :: (x in e <==> x in d || lba <= x < lba + n)
              && (x in e ==> e[x] == if lba <= x < lba + n then b[x - lba] else d[x])
  {
    var ws := BlockWrites(lba, b);
    if n > 0 {
      BlockLands(d, lba, b, n - 1);
      assert ws[..n] == ws[..n - 1] + [ws[n - 1]];
      ApplyConcat(d, ws[..n - 1], [ws[n - 1]]);
      ApplyOne(Apply(d, ws[..n - 1]), ws[n - 1]);
    }
  }

  lemma BlockPlaced(d: Image, e: Entry)
    ensures Apply(d, BlockWrites(FinalLba(e.target), e.data)) == Placed(d, [e])
  {
    hide Placed, Apply, BlockWrites;
    var lba, ws := 8 * BlockOf(e.target), BlockWrites(FinalLba(e.target), e.data);
    assert FinalLba(e.target) == lba;
    BlockLands(d, lba, e.data, 8);
    assert |ws| == 8 by { BlockLength(lba, e.data); }
    assert ws[..8] == ws;
    var a, b := Apply(d, ws), Placed(d, [e]);
    forall x: nat ensures (x in a <==> x in b) && (x in a ==> a[x] == b[x]) {
      PlacedHolds(d, [e], x);
      assert x / 8 == BlockOf(e.target) <==> lba <= x < lba + 8;
    }
    assert a == b;
  }

  lemma BlockLength(lba: nat, b: Block)
    ensures |BlockWrites(lba, b)| == 8
  {}

  /** Two transactions one after the other are one long one. */
  lemma PlacedConcat(d: Image, t: seq<Entry>, u: seq<Entry>)
    ensures Placed(Placed(d, t), u) == Placed(d, t + u)
  {
    hide Placed, Last;
    var a, b := Placed(Placed(d, t), u), Placed(d, t + u);
    forall x: nat ensures (x in a <==> x in b) && (x in a ==> a[x] == b[x]) {
      PlacedHolds(d, t, x);
      PlacedHolds(Placed(d, t), u, x);
      PlacedHolds(d, t + u, x);
      LastConcat(t, u, x / 8);
    }
    assert a == b;
  }

  lemma LastConcat(t: seq<Entry>, u: seq<Entry>, b: nat)
    ensures Last(t + u, b) == if Last(u, b) >= 0 then |t| + Last(u, b) else Last(t, b)
  {
    var all, i, k := t + u, Last(u, b), Last(t, b);
    var m := Last(all, b);
    if i >= 0 {
      assert all[|t| + i] == u[i];
    }
    if k >= 0 {
      assert all[k] == t[k];
    }
    if m >= |t| {
      assert all[m] == u[m - |t|];
    } else if m >= 0 {
      assert all[m] == t[m];
    }
  }

  /** Writing the blocks home puts each of them in its place. */
  lemma {:induction false} HomeIsPlaced(d: Image, t: seq<Entry>)
    ensures Apply(d, HomeWrites(t)) == Placed(d, t)
    decreases |t|
  {
    if t == [] {
      PlacedNothing(d);
    } else {
      var ws := BlockWrites(FinalLba(t[0].target), t[0].data);
      ApplyConcat(d, ws, HomeWrites(t[1..]));
      BlockPlaced(d, t[0]);
      HomeIsPlaced(Placed(d, [t[0]]), t[1..]);
      PlacedConcat(d, [t[0]], t[1..]);
      assert [t[0]] + t[1..] == t;
    }
  }

  // ----- where the writes go -----

  lemma {:induction false} LogWritesAt(t: seq<Entry>, lba: nat, k: nat)
    requires k < 8 * |t|
    ensures LogWrites(t, lba)[k] == Write(lba + k, t[k / 8].data[k % 8])
    decreases |t|
  {
    if k >= 8 {
      LogWritesAt(t[1..], lba + 8, k - 8);
      assert (k - 8) / 8 == k / 8 - 1 && (k - 8) % 8 == k % 8;
    }
  }

  lemma {:induction false} HomeWritesAt(t: seq<Entry>, k: nat)
    requires k < 8 * |t|
    ensures HomeWrites(t)[k] == Write(FinalLba(t[k / 8].target) + k % 8, t[k / 8].data[k % 8])
    decreases |t|
  {
    if k >= 8 {
      HomeWritesAt(t[1..], k - 8);
      assert (k - 8) / 8 == k / 8 - 1 && (k - 8) % 8 == k % 8;
    }
  }

  ghost predicate OnlyJournal(ws: seq<Write>) {
    forall i :: 0 <= i < |ws| ==> InJournal(ws[i].lba)
  }

  lemma {:induction false} JournalWritesKeepHome(d: Image, ws: seq<Write>)
    requires OnlyJournal(ws)
    ensures Home(Apply(d, ws)) == Home(d)
  {
    var e := Apply(d, ws);
    forall lba: nat | !InJournal(lba) ensures (lba in e <==> lba in d) && (lba in d ==> e[lba] == d[lba]) {
      assert !Touches(ws, lba);
      ApplyFrame(d, ws, lba);
    }
  }

  /** Writes outside the journal area act on the home part alone. */
  lemma {:induction false} HomeCommutes(d: Image, e: Image, ws: seq<Write>)
    requires forall i :: 0 <= i < |ws| ==> !InJournal(ws[i].lba)
    requires Home(d) == Home(e)
    ensures Home(Apply(d, ws)) == Home(Apply(e, ws))
    decreases |ws|
  {
    if ws != [] {
      var w := ws[0];
      assert !InJournal(w.lba);
      assert Home(d[w.lba := w.data]) == Home(d)[w.lba := w.data];
      assert Home(e[w.lba := w.data]) == Home(e)[w.lba := w.data];
      HomeCommutes(d[w.lba := w.data], e[w.lba := w.data], ws[1..]);
    }
  }

  lemma FinalSector(target: Word32, j: nat)
    ensures FinalLba(target) + j == SectorOf(target, j)
  {}

  lemma {:induction false} HomeWritesOutside(t: seq<Entry>)
    requires forall i :: 0 <= i < |t| ==> SafeTarget(t[i].target)
    ensures forall i :: 0 <= i < |HomeWrites(t)| ==> !InJournal(HomeWrites(t)[i].lba)
  {
    hide HomeWrites;
    forall k | 0 <= k < |HomeWrites(t)| ensures !InJournal(HomeWrites(t)[k].lba) {
      HomeWritesAt(t, k);
      FinalSector(t[k / 8].target, k % 8);
      assert SafeTarget(t[k / 8].target);
    }
  }

  // ----- one commit, cut at any point -----

  lemma {:induction false} HasJournalKept(d: Image, ws: seq<Write>)
    requires HasJournal(d)
    ensures HasJournal(Apply(d, ws))
  {
    ApplyKeys(d, ws);
  }

  lemma {:induction false} HeaderReadsBack(t: seq<Entry>, seqNo: Word32, committed: Word32)
    requires |t| <= JOURNAL_MAX_BLOCKS
    ensures var h := Header(t, seqNo, committed);
            h[0] == JOURNAL_MAGIC && h[2] == |t| && h[3] == committed &&
            forall i :: 0 <= i < |t| ==> h[4 + i] == t[i].target
  {
  }

  /** The journal area of `d` spells out the transaction `t`. */
  ghost predicate Spells(d: Image, t: seq<Entry>)
    requires HasJournal(d)
  {
    && LoggedCount(d) == |t|
    && (assert InJournal(JOURNAL_START_LBA); forall i :: 0 <= i < |t| ==> d[JOURNAL_START_LBA][4 + i] == t[i].target)
    && (forall i, j :: 0 <= i < |t| && 0 <= j < 8 ==> LoggedBlock(d, i)[j] == t[i].data[j])
  }

  lemma {:induction false} SpeltIsLogged(d: Image, t: seq<Entry>)
    requires HasJournal(d) && Spells(d, t)
    ensures Logged(d) == t
  {
    forall i | 0 <= i < |t| ensures Logged(d)[i] == t[i] {
      assert LoggedBlock(d, i) == t[i].data;
    }
  }

  /** Writes outside the journal area leave every journal sector alone. */
  lemma {:induction false} JournalUntouched(d: Image, ws: seq<Write>)
    requires HasJournal(d)
    requires forall i :: 0 <= i < |ws| ==> !InJournal(ws[i].lba)
    ensures HasJournal(Apply(d, ws))
    ensures forall lba: nat :: InJournal(lba) ==> Apply(d, ws)[lba] == d[lba]
  {
    HasJournalKept(d, ws);
    forall lba: nat | InJournal(lba) ensures Apply(d, ws)[lba] == d[lba] {
      assert !Touches(ws, lba);
      ApplyFrame(d, ws, lba);
    }
  }

  lemma {:induction false} HeaderMarked(t: seq<Entry>, seqNo: Word32, from: Word32, to: Word32)
    requires |t| <= JOURNAL_MAX_BLOCKS
    ensures Header(t, seqNo, from)[3 := to] == Header(t, seqNo, to)
  {
  }

  /** After the log has been written, recovery would read exactly the transaction back. */
  lemma {:induction false} LogReadsBack(d: Image, t: seq<Entry>, seqNo: Word32, ws: seq<Write>)
    requires HasJournal(d) && SafeTxn(t)
    requires forall i :: 0 <= i < |ws| ==> !InJournal(ws[i].lba)
    ensures var e := Apply(Apply(Apply(d, LogWrites(t, JOURNAL_START_LBA + 1)), [HeaderWrite(t, seqNo, 1)]), ws);
            HasJournal(e) && Pending(e) && Logged(e) == t
  {
    hide Apply, Header;
    var d1 := Apply(d, LogWrites(t, JOURNAL_START_LBA + 1));
    var d2 := Apply(d1, [HeaderWrite(t, seqNo, 1)]);
    HasJournalKept(d, LogWrites(t, JOURNAL_START_LBA + 1));
    HasJournalKept(d1, [HeaderWrite(t, seqNo, 1)]);
    ApplyOne(d1, HeaderWrite(t, seqNo, 1));
    JournalUntouched(d2, ws);
    var e := Apply(d2, ws);
    assert InJournal(JOURNAL_START_LBA);
    HeaderReadsBack(t, seqNo, 1);
    forall i, j | 0 <= i < |t| && 0 <= j < 8 ensures LoggedBlock(e, i)[j] == t[i].data[j] {
      assert InJournal(JOURNAL_START_LBA + 1 + 8 * i + j);
      LogWritesLand(d, t, JOURNAL_START_LBA + 1, 8 * i + j);
    }
    SpeltIsLogged(e, t);
  }

  lemma {:induction false} LogWritesLand(d: Image, t: seq<Entry>, lba: nat, k: nat)
    requires k < 8 * |t|
    ensures lba + k in Apply(d, LogWrites(t, lba))
    ensures Apply(d, LogWrites(t, lba))[lba + k] == t[k / 8].data[k % 8]
  {
    var ws := LogWrites(t, lba);
    var front := Apply(d, ws[..k]);
    assert ws == ws[..k] + ws[k..];
    ApplyConcat(d, ws[..k], ws[k..]);
    LogWritesAt(t, lba, k);
    var rest := ws[k..][1..];
    assert ws[k..][0] == ws[k];
    forall i | 0 <= i < |rest| ensures rest[i].lba != lba + k {
      assert rest[i] == ws[k + 1 + i];
      LogWritesAt(t, lba, k + 1 + i);
    }
    ApplyFrame(front[lba + k := ws[k].data], rest, lba + k);
  }

  /** What the disk holds when the power fails after `k` sector writes of a commit. */
  function Torn(d: Image, t: seq<Entry>, seqNo: Word32, k: nat): Image
    requires |t| <= JOURNAL_MAX_BLOCKS && k <= 3 + 16 * |t|
  {
    Apply(d, CommitWrites(t, seqNo)[..k])
  }

  /** The commit record is among the first `k` writes. */
  predicate Decided(t: seq<Entry>, k: nat) { 2 + 8 * |t| <= k }

  lemma {:induction false} CommitPrefix(t: seq<Entry>, seqNo: Word32, k: nat)
    requires |t| <= JOURNAL_MAX_BLOCKS && k <= 3 + 16 * |t|
    ensures var ws := CommitWrites(t, seqNo)[..k];
            var head := [HeaderWrite(t, seqNo, 0)];
            var log := LogWrites(t, JOURNAL_START_LBA + 1);
            var mark := [HeaderWrite(t, seqNo, 1)];
            var n := 8 * |t|;
            && (k == 0 ==> ws == [])
            && (1 <= k <= 1 + n ==> ws == head + log[..k - 1])
            && (2 + n <= k <= 2 + 2 * n ==> ws == head + (log + (mark + HomeWrites(t)[..k - 2 - n])))
            && (k == 3 + 2 * n ==> ws == head + (log + (mark + (HomeWrites(t) + [HeaderWrite(t, seqNo, 2)]))))
  {
  }

  /**
   A commit cut after any number of sector writes leaves a disk that recovery
   turns into either the old contents or the old contents with the whole
   transaction applied: the latter exactly when the commit record was written.
   */
  lemma {:induction false} TornCommitIsAtomic(d: Image, t: seq<Entry>, seqNo: Word32, k: nat)
    requires HasJournal(d) && !Pending(d) && SafeTxn(t) && k <= 3 + 16 * |t|
    ensures var e := Torn(d, t, seqNo, k);
            && SafeJournal(e)
            && Home(Recovered(e)) == Home(if Decided(t, k) then Placed(d, t) else d)
            && (k == 3 + 16 * |t| ==> !Pending(e) && Home(e) == Home(Placed(d, t)))
  {
    CommitPrefix(t, seqNo, k);
    HomeIsPlaced(d, t);
    hide Placed;
    var n := 8 * |t|;
    if k == 0 {
    } else if k <= 1 + n {
      TornBeforeMark(d, t, seqNo, k);
    } else if k <= 2 + 2 * n {
      TornAfterMark(d, t, seqNo, k - 2 - n);
    } else {
      CommitCompletes(d, t, seqNo);
    }
  }

  lemma {:induction false} LogStaysInJournal(t: seq<Entry>, k: nat)
    requires |t| <= JOURNAL_MAX_BLOCKS && k <= 8 * |t|
    ensures OnlyJournal(LogWrites(t, JOURNAL_START_LBA + 1)[..k])
    ensures !Touches(LogWrites(t, JOURNAL_START_LBA + 1)[..k], JOURNAL_START_LBA)
  {
    var ws := LogWrites(t, JOURNAL_START_LBA + 1);
    forall i | 0 <= i < k ensures InJournal(ws[..k][i].lba) && ws[..k][i].lba != JOURNAL_START_LBA {
      LogWritesAt(t, JOURNAL_START_LBA + 1, i);
    }
  }

  lemma {:induction false} TornBeforeMark(d: Image, t: seq<Entry>, seqNo: Word32, k: nat)
    requires HasJournal(d) && SafeTxn(t) && 1 <= k <= 1 + 8 * |t|
    ensures var e := Apply(d, [HeaderWrite(t, seqNo, 0)] + LogWrites(t, JOURNAL_START_LBA + 1)[..k - 1]);
            HasJournal(e) && !Pending(e) && Home(e) == Home(d)
  {
    var head := [HeaderWrite(t, seqNo, 0)];
    var log := LogWrites(t, JOURNAL_START_LBA + 1)[..k - 1];
    ApplyConcat(d, head, log);
    ApplyOne(d, head[0]);
    LogStaysInJournal(t, k - 1);
    HasJournalKept(d, head + log);
    ApplyFrame(Apply(d, head), log, JOURNAL_START_LBA);
    HeaderReadsBack(t, seqNo, 0);
    JournalWritesKeepHome(d, head + log);
  }

  lemma {:induction false} TornAfterMark(d: Image, t: seq<Entry>, seqNo: Word32, k: nat)
    requires HasJournal(d) && SafeTxn(t) && k <= 8 * |t|
    ensures var log := LogWrites(t, JOURNAL_START_LBA + 1) + ([HeaderWrite(t, seqNo, 1)] + HomeWrites(t)[..k]);
            var e := Apply(d, [HeaderWrite(t, seqNo, 0)] + log);
            && HasJournal(e) && Pending(e) && Logged(e) == t
            && Home(e) == Home(Apply(d, HomeWrites(t)[..k]))
            && Home(Recovered(e)) == Home(Apply(d, HomeWrites(t)))
  {
    var head, mark := [HeaderWrite(t, seqNo, 0)], [HeaderWrite(t, seqNo, 1)];
    var log := LogWrites(t, JOURNAL_START_LBA + 1);
    var part := HomeWrites(t)[..k];
    var d0 := Apply(d, head);
    var d2 := Apply(Apply(d0, log), mark);
    ApplyConcat(d, head, log + (mark + part));
    ApplyConcat(d0, log, mark + part);
    ApplyConcat(Apply(d0, log), mark, part);
    HasJournalKept(d, head);
    HomeWritesOutside(t);
    LogReadsBack(d0, t, seqNo, part);

    // the journal writes so far did not touch the home part
    LogStaysInJournal(t, 8 * |t|);
    assert log[..8 * |t|] == log;
    JournalWritesKeepHome(d, head);
    JournalWritesKeepHome(d0, log);
    JournalWritesKeepHome(Apply(d0, log), mark);
    HomeCommutes(d2, d, part);

    var e := Apply(d2, part);
    hide Placed;
    RecoveryFinishes(e);
    HomeIsPlaced(e, t);
    RedoIdempotent(d, HomeWrites(t), k);
    HomeCommutes(e, Apply(d, part), HomeWrites(t));
  }

  /** A complete recovery writes the logged blocks home and leaves nothing pending. */
  lemma {:induction false} RecoveryFinishes(d: Image)
    requires SafeJournal(d)
    ensures HasJournal(Recovered(d)) && !Pending(Recovered(d))
    ensures Pending(d) ==> Home(Recovered(d)) == Home(Placed(d, Logged(d)))
  {
    hide Placed;
    if Pending(d) {
      HomeIsPlaced(d, Logged(d));
      assert InJournal(JOURNAL_START_LBA);
      var ws := HomeWrites(Logged(d));
      var mark := Write(JOURNAL_START_LBA, d[JOURNAL_START_LBA][3 := 2]);
      ApplyConcat(d, ws, [mark]);
      HasJournalKept(d, ws);
      ApplyOne(Apply(d, ws), mark);
      JournalWritesKeepHome(Apply(d, ws), [mark]);
    }
  }

  lemma {:induction false} CommitCompletes(d: Image, t: seq<Entry>, seqNo: Word32)
    requires HasJournal(d) && SafeTxn(t)
    ensures var e := Apply(d, [HeaderWrite(t, seqNo, 0)] + (LogWrites(t, JOURNAL_START_LBA + 1)
                              + ([HeaderWrite(t, seqNo, 1)] + (HomeWrites(t) + [HeaderWrite(t, seqNo, 2)]))));
            HasJournal(e) && !Pending(e) && Home(e) == Home(Apply(d, HomeWrites(t)))
  {
    var head, log, mark := [HeaderWrite(t, seqNo, 0)], LogWrites(t, JOURNAL_START_LBA + 1), [HeaderWrite(t, seqNo, 1)];
    var home, done := HomeWrites(t), HeaderWrite(t, seqNo, 2);
    assert head + (log + (mark + (home + [done]))) == (head + (log + (mark + home))) + [done];
    var all := head + (log + (mark + home));
    TornAfterMark(d, t, seqNo, 8 * |t|);
    assert home[..8 * |t|] == home;
    ApplyConcat(d, all, [done]);
    ApplyOne(Apply(d, all), done);
    HeaderReadsBack(t, seqNo, 2);
    JournalWritesKeepHome(Apply(d, all), [done]);
  }

  /** A recovery that is itself cut short can be recovered to the same contents. */
  lemma {:induction false} TornRecoveryIsHarmless(d: Image, k: nat)
    requires SafeJournal(d) && k <= |RecoverWrites(d)|
    ensures var e := Apply(d, RecoverWrites(d)[..k]);
            SafeJournal(e) && Home(Recovered(e)) == Home(Recovered(d))
  {
    var ws := RecoverWrites(d);
    if !Pending(d) {
      assert ws[..k] == [];
    } else if k == |ws| {
      assert ws[..k] == ws;
      RecoveryFinishes(d);
    } else {
      var t := Logged(d);
      var home := HomeWrites(t);
      assert ws[..k] == home[..k];
      var e := Apply(d, home[..k]);
      HomeWritesOutside(t);
      JournalUntouched(d, home[..k]);
      assert InJournal(JOURNAL_START_LBA);
      forall i, j | 0 <= i < |t| && 0 <= j < 8 ensures LoggedBlock(e, i)[j] == t[i].data[j] {
        assert InJournal(JOURNAL_START_LBA + 1 + 8 * i + j);
      }
      SpeltIsLogged(e, t);
      hide Placed;
      RecoveryFinishes(d);
      RecoveryFinishes(e);
      HomeIsPlaced(d, t);
      HomeIsPlaced(e, t);
      RedoIdempotent(d, home, k);
    }
  }

  // ----- whole histories -----

  /** What can happen between two boots, and the boots themselves. */
  datatype Event =
    | Commit(txn: seq<Entry>)                 // journal_commit ran to the end
    | CrashInCommit(txn: seq<Entry>, k: nat)  // the power failed after k of its sector writes
    | Boot                                    // journal_init and journal_recover ran to the end
    | CrashInBoot(k: nat)                     // the power failed after k sector writes of recovery

  datatype System = System(disk: Image, up: bool, seqNo: Word32)

  ghost predicate Enabled(s: System, e: Event) {
    match e
    case Commit(t) => s.up && SafeTxn(t)
    case CrashInCommit(t, k) => s.up && SafeTxn(t) && k <= 3 + 16 * |t|
    case Boot => !s.up && SafeJournal(s.disk)
    case CrashInBoot(k) => !s.up && SafeJournal(s.disk) && k <= |RecoverWrites(s.disk)|
  }

  ghost function Step(s: System, e: Event): System
    requires Enabled(s, e)
  {
    match e
    case Commit(t) => System(Apply(s.disk, CommitWrites(t, s.seqNo)), true, (s.seqNo + 1) % 0x1_0000_0000)
    case CrashInCommit(t, k) => System(Torn(s.disk, t, s.seqNo, k), false, 0)
    case Boot => System(Recovered(s.disk), true, 0)
    case CrashInBoot(k) => System(Apply(s.disk, RecoverWrites(s.disk)[..k]), false, 0)
  }

  /** The client's view: a disk of blocks without journal, on which a decided transaction happens at once. */
  ghost function After(home: Image, e: Event): Image {
    match e
    case Commit(t) => Placed(home, t)
    case CrashInCommit(t, k) => if Decided(t, k) then Placed(home, t) else home
    case _ => home
  }

  ghost function Ideal(home: Image, events: seq<Event>): Image {
    if events == [] then home else After(Ideal(home, events[..|events| - 1]), events[|events| - 1])
  }

  /** Every entry of every decided transaction, in order. */
  function Decisions(events: seq<Event>): seq<Entry> {
    if events == [] then []
    else
      Decisions(events[..|events| - 1]) +
      match events[|events| - 1]
      case Commit(t) => t
      case CrashInCommit(t, k) => if Decided(t, k) then t else []
      case _ => []
  }

  /** In the client's view each block is as the last decided entry for it left it, however long ago. */
  lemma {:induction false} IdealIsPlaced(home: Image, events: seq<Event>)
    ensures Ideal(home, events) == Placed(home, Decisions(events))
  {
    hide Placed;
    PlacedNothing(home);
    if events != [] {
      var n := |events| - 1;
      IdealIsPlaced(home, events[..n]);
      var t := Decisions(events)[|Decisions(events[..n])|..];
      assert Decisions(events) == Decisions(events[..n]) + t;
      PlacedConcat(home, Decisions(events[..n]), t);
      PlacedNothing(Ideal(home, events[..n]));
    }
  }

  lemma PlacedNothing(d: Image)
    ensures Placed(d, []) == d
  {
    assert Sectors([]) == {};
  }

  /** `states` is the sequence of systems a history passes through. */
  ghost predicate History(states: seq<System>, events: seq<Event>) {
    && |states| == |events| + 1
    && forall i :: 0 <= i < |events| ==> Enabled(states[i], events[i]) && states[i + 1] == Step(states[i], events[i])
  }

  ghost predicate Agrees(s: System, home: Image) {
    && SafeJournal(s.disk)
    && Home(Recovered(s.disk)) == home
    && (s.up ==> !Pending(s.disk) && Home(s.disk) == home)
  }

  /**
   In every history of commits, crashes at any sector write and boots that may
   themselves crash any number of times, the disk outside the journal holds (or,
   while down, will hold after recovery) exactly the decided transactions,
   applied whole and in order.
   */
  lemma {:induction false} EveryHistoryIsAtomic(states: seq<System>, events: seq<Event>)
    requires History(states, events)
    requires SafeJournal(states[0].disk) && (states[0].up ==> !Pending(states[0].disk))
    ensures Agrees(states[|events|], Ideal(Home(Recovered(states[0].disk)), events))
    ensures Agrees(states[|events|], Placed(Home(Recovered(states[0].disk)), Decisions(events)))
    decreases |events|
  {
    hide Placed, Decisions;
    IdealIsPlaced(Home(Recovered(states[0].disk)), events);
    if events != [] {
      var n := |events| - 1;
      assert events[..n + 1] == events;
      EveryHistoryIsAtomic(states[..n + 1], events[..n]);
      StepKeepsAgreement(states[n], events[n], Ideal(Home(Recovered(states[0].disk)), events[..n]));
    }
  }

  lemma {:induction false} StepKeepsAgreement(s: System, e: Event, home: Image)
    requires Agrees(s, home) && Enabled(s, e)
    ensures Agrees(Step(s, e), After(home, e))
  {
    hide Placed;
    match e
    case Commit(t) =>
      var k := 3 + 16 * |t|;
      assert CommitWrites(t, s.seqNo)[..k] == CommitWrites(t, s.seqNo);
      TornCommitIsAtomic(s.disk, t, s.seqNo, k);
      IdealStep(s.disk, home, t);
    case CrashInCommit(t, k) =>
      TornCommitIsAtomic(s.disk, t, s.seqNo, k);
      IdealStep(s.disk, home, t);
    case Boot =>
      RecoveryFinishes(s.disk);
    case CrashInBoot(k) =>
      TornRecoveryIsHarmless(s.disk, k);
  }

  lemma PlacedOutside(home: Image, t: seq<Entry>)
    requires forall i :: 0 <= i < |t| ==> SafeTarget(t[i].target)
    requires forall lba :: lba in home ==> !InJournal(lba)
    ensures forall lba :: lba in Placed(home, t) ==> !InJournal(lba)
  {
    hide Placed;
    forall lba | lba in Placed(home, t) ensures !InJournal(lba) {
      PlacedHolds(home, t, lba);
      var i := Last(t, lba / 8);
      if i >= 0 {
        assert SafeTarget(t[i].target) && lba == SectorOf(t[i].target, lba % 8);
      }
    }
  }

  lemma {:induction false} IdealStep(d: Image, home: Image, t: seq<Entry>)
    requires Home(d) == home && SafeTxn(t)
    ensures Home(Placed(d, t)) == Placed(home, t)
  {
    hide Placed, Apply, HomeWrites;
    assert Home(home) == home;
    HomeWritesOutside(t);
    HomeCommutes(d, home, HomeWrites(t));
    HomeIsPlaced(d, t);
    HomeIsPlaced(home, t);
    PlacedOutside(home, t);
    assert Home(Placed(home, t)) == Placed(home, t);
  }

  // ----- the code -----

  /** The disk after `ws`, when the power lasts for `power` sector writes. */
  function Powered(d: Image, power: nat, ws: seq<Write>): Image {
    if power < |ws| then Apply(d, ws[..power]) else Apply(d, ws)
  }

  function PowerLeft(power: nat, ws: seq<Write>): nat {
    if power < |ws| then 0 else power - |ws|
  }

  lemma {:induction false} PoweredConcat(d: Image, power: nat, a: seq<Write>, b: seq<Write>)
    ensures Powered(d, power, a + b) == Powered(Powered(d, power, a), PowerLeft(power, a), b)
    ensures PowerLeft(power, a + b) == PowerLeft(PowerLeft(power, a), b)
  {
    if power < |a| {
      assert (a + b)[..power] == a[..power];
      assert b[..0] == [];
    } else if power < |a + b| {
      assert (a + b)[..power] == a + b[..power - |a|];
      ApplyConcat(d, a, b[..power - |a|]);
    } else {
      ApplyConcat(d, a, b);
    }
  }

  function SectorWrites(lba: nat, data: seq<Sector>): seq<Write> {
    seq(|data|, j requires 0 <= j < |data| => Write(lba + j, data[j]))
  }

  /** The disk behind ata_read_sectors and ata_write_sectors. */
  class Disk {
    var sectors: Image
    var writesLeft: nat

    constructor (image: Image, power: nat)
      ensures sectors == image && writesLeft == power
    {
      sectors, writesLeft := image, power;
    }

    /** This disk is what `ws` makes of `before` under the given power supply. */
    ghost predicate Did(before: Image, power: nat, ws: seq<Write>)
      reads this
    {
      Does(before, power, ws, sectors, writesLeft)
    }

    method WriteSectors(lba: nat, data: seq<Sector>)
      modifies this
      ensures Did(old(sectors), old(writesLeft), SectorWrites(lba, data))
    {
      ghost var ws := SectorWrites(lba, data);
      for s := 0 to |data|
        invariant Did(old(sectors), old(writesLeft), ws[..s])
      {
        assert ws[..s + 1] == ws[..s] + [ws[s]];
        PoweredConcat(old(sectors), old(writesLeft), ws[..s], [ws[s]]);
        ApplyOne(sectors, ws[s]);
        assert [ws[s]][..0] == [];
        if writesLeft > 0 {
          sectors, writesLeft := sectors[lba + s := data[s]], writesLeft - 1;
        }
      }
      assert ws[..|data|] == ws;
    }

    method ReadBlock(lba: nat) returns (data: Block)
      requires forall a: nat :: lba <= a < lba + 8 ==> a in sectors
      ensures forall j :: 0 <= j < 8 ==> data[j] == sectors[lba + j]
    {
      var buf: seq<Sector> := [];
      for s := 0 to 8
        invariant |buf| == s && forall j :: 0 <= j < s ==> buf[j] == sectors[lba + j]
      {
        buf := buf + [sectors[lba + s]];
      }
      data := buf;
    }
  }

  /** struct journal_txn: the block pointers are kept, and read only when the transaction commits. */
  class Txn {
    var targets: seq<Word32>
    var buffers: seq<array<Sector>>
    var active: bool

    ghost predicate Valid()
      reads this, buffers
    {
      && |targets| == |buffers| <= JOURNAL_MAX_BLOCKS
      && forall i :: 0 <= i < |buffers| ==> buffers[i].Length == 8
    }

    /** The first `n` entries of the transaction as it would be committed now. */
    ghost function Prefix(n: nat): (t: seq<Entry>)
      requires Valid() && n <= |targets|
      reads this, buffers
      ensures |t| == n && forall i :: 0 <= i < n ==> t[i] == Entry(targets[i], buffers[i][..])
    {
      if n == 0 then [] else Prefix(n - 1) + [Entry(targets[n - 1], buffers[n - 1][..])]
    }

    ghost function Entries(): (t: seq<Entry>)
      requires Valid()
      reads this, buffers
    {
      Prefix(|targets|)
    }

    constructor Begin()
      ensures Valid() && active && Entries() == []
    {
      targets, buffers, active := [], [], true;
    }

    method Log(blockNo: Word32, data: array<Sector>) returns (ok: bool)
      requires Valid() && data.Length == 8
      modifies this
      ensures Valid() && active == old(active)
      ensures ok == (active && old(|targets|) < JOURNAL_MAX_BLOCKS)
      ensures Entries() == if ok then old(Entries()) + [Entry(blockNo, old(data[..]))] else old(Entries())
    {
      if !active || |targets| >= JOURNAL_MAX_BLOCKS {
        return false;
      }
      targets, buffers := targets + [blockNo], buffers + [data];
      return true;
    }
  }

  lemma {:induction false} HomeWritesNext(t: seq<Entry>, i: nat, home: seq<Write>)
    requires i < |t| && home + HomeWrites(t[i..]) == HomeWrites(t)
    ensures home + BlockWrites(FinalLba(t[i].target), t[i].data) + HomeWrites(t[i + 1..]) == HomeWrites(t)
  {
    assert t[i..][1..] == t[i + 1..];
  }

  /** `ws` takes a disk and its power supply from `d, p` to `d', p'`. */
  ghost predicate Does(d: Image, p: nat, ws: seq<Write>, d': Image, p': nat) {
    d' == Powered(d, p, ws) && p' == PowerLeft(p, ws)
  }

  lemma {:induction false} DoesNothing(d: Image, p: nat)
    ensures Does(d, p, [], d, p)
  {
  }

  lemma {:induction false} DoesThen(d: Image, p: nat, a: seq<Write>, d1: Image, p1: nat, b: seq<Write>, d2: Image,
                                    p2: nat)
    requires Does(d, p, a, d1, p1) && Does(d1, p1, b, d2, p2)
    ensures Does(d, p, a + b, d2, p2)
  {
    PoweredConcat(d, p, a, b);
  }

  /** What the two methods below do to the disk is always a step of a history. */
  lemma {:induction false} CodeMakesHistory(s: System, e: Event, power: nat, d: Image, p: nat)
    requires e.Commit? || e.Boot?
    requires Enabled(s, e)
    requires Does(s.disk, power, if e.Commit? then CommitWrites(e.txn, s.seqNo) else RecoverWrites(s.disk), d, p)
    ensures d == Step(s, e).disk
         || (var cut := if e.Commit? then CrashInCommit(e.txn, power) else CrashInBoot(power);
             Enabled(s, cut) && d == Step(s, cut).disk)
  {
  }

  /** With the power on throughout, the blocks are in their places. */
  lemma PoweredHome(d: Image, p: nat, t: seq<Entry>, d': Image, p': nat)
    requires Does(d, p, HomeWrites(t), d', p') && p >= 8 * |t|
    ensures d' == Placed(d, t)
  {
    HomeIsPlaced(d, t);
    assert HomeWrites(t)[..|HomeWrites(t)|] == HomeWrites(t);
  }

  lemma PoweredCommit(d: Image, p: nat, t: seq<Entry>, seqNo: Word32, d': Image, p': nat)
    requires HasJournal(d) && !Pending(d) && SafeTxn(t)
    requires Does(d, p, CommitWrites(t, seqNo), d', p') && p >= 3 + 16 * |t|
    ensures Home(d') == Placed(Home(d), t)
  {
    var ws := CommitWrites(t, seqNo);
    assert ws[..|ws|] == ws;
    TornCommitIsAtomic(d, t, seqNo, |ws|);
    IdealStep(d, Home(d), t);
  }

  class Journal {
    const disk: Disk
    var seqNo: Word32

    constructor (disk: Disk)
      ensures this.disk == disk && seqNo == 0
    {
      this.disk, seqNo := disk, 0;
    }

    /** Step 2 of journal_commit: the block data, one block after the other. */
    method WriteLog(txn: Txn)
      requires txn.Valid()
      modifies disk
      ensures disk.Did(old(disk.sectors), old(disk.writesLeft), LogWrites(txn.Entries(), JOURNAL_START_LBA + 1))
    {
      hide Powered, PowerLeft, Does;
      DoesNothing(disk.sectors, disk.writesLeft);
      ghost var t := txn.Entries();
      ghost var log := [];
      var lba := JOURNAL_START_LBA + 1;
      for i := 0 to |txn.targets|
        invariant lba == JOURNAL_START_LBA + 1 + 8 * i
        invariant log + LogWrites(t[i..], lba) == LogWrites(t, JOURNAL_START_LBA + 1)
        invariant disk.Did(old(disk.sectors), old(disk.writesLeft), log)
      {
        ghost var step := BlockWrites(lba, t[i].data);
        assert SectorWrites(lba, txn.buffers[i][..]) == step;
        ghost var d1, p1 := disk.sectors, disk.writesLeft;
        disk.WriteSectors(lba, txn.buffers[i][..]);
        DoesThen(old(disk.sectors), old(disk.writesLeft), log, d1, p1, step, disk.sectors, disk.writesLeft);
        assert t[i..][1..] == t[i + 1..];
        log, lba := log + step, lba + 8;
      }
      assert t[|t|..] == [] && log == LogWrites(t, JOURNAL_START_LBA + 1);
    }

    /** Step 4 of journal_commit: the blocks at their final locations. */
    method WriteHome(txn: Txn)
      requires txn.Valid()
      modifies disk
      ensures disk.Did(old(disk.sectors), old(disk.writesLeft), HomeWrites(txn.Entries()))
      ensures old(disk.writesLeft) >= 8 * |txn.targets| ==> disk.sectors == Placed(old(disk.sectors), txn.Entries())
    {
      hide Powered, PowerLeft, Does;
      DoesNothing(disk.sectors, disk.writesLeft);
      ghost var t := txn.Entries();
      ghost var home := [];
      for i := 0 to |txn.targets|
        invariant home + HomeWrites(t[i..]) == HomeWrites(t)
        invariant disk.Did(old(disk.sectors), old(disk.writesLeft), home)
      {
        var finalLba := FinalLba(txn.targets[i]);
        ghost var step := BlockWrites(finalLba, t[i].data);
        assert SectorWrites(finalLba, txn.buffers[i][..]) == step;
        ghost var d1, p1 := disk.sectors, disk.writesLeft;
        disk.WriteSectors(finalLba, txn.buffers[i][..]);
        DoesThen(old(disk.sectors), old(disk.writesLeft), home, d1, p1, step, disk.sectors, disk.writesLeft);
        HomeWritesNext(t, i, home);
        home := home + step;
      }
      assert t[|t|..] == [] && home == HomeWrites(t);
      if old(disk.writesLeft) >= 8 * |t| {
        PoweredHome(old(disk.sectors), old(disk.writesLeft), t, disk.sectors, disk.writesLeft);
      }
    }

    method WriteHeader(hdr: Sector)
      modifies disk
      ensures disk.Did(old(disk.sectors), old(disk.writesLeft), [Write(JOURNAL_START_LBA, hdr)])
    {
      disk.WriteSectors(JOURNAL_START_LBA, [hdr]);
      assert SectorWrites(JOURNAL_START_LBA, [hdr]) == [Write(JOURNAL_START_LBA, hdr)];
    }

    /** Steps 1 to 3 of journal_commit: everything up to and including the commit record. */
    method WriteAhead(txn: Txn) returns (hdr: Sector)
      requires txn.Valid()
      modifies disk
      ensures hdr == Header(txn.Entries(), seqNo, 1)
      ensures disk.Did(old(disk.sectors), old(disk.writesLeft), AheadWrites(txn.Entries(), seqNo))
    {
      hide Powered, PowerLeft, Does, Header, LogWrites;
      ghost var t := txn.Entries();
      hdr := HeaderSector(txn, 0);
      WriteHeader(hdr);
      ghost var d1, p1 := disk.sectors, disk.writesLeft;
      WriteLog(txn);
      ghost var d2, p2 := disk.sectors, disk.writesLeft;
      DoesThen(old(disk.sectors), old(disk.writesLeft), [HeaderWrite(t, seqNo, 0)], d1, p1,
               LogWrites(t, JOURNAL_START_LBA + 1), d2, p2);
      HeaderMarked(t, seqNo, 0, 1);
      hdr := hdr[3 := 1];
      WriteHeader(hdr);
      DoesThen(old(disk.sectors), old(disk.writesLeft),
               [HeaderWrite(t, seqNo, 0)] + LogWrites(t, JOURNAL_START_LBA + 1), d2, p2,
               [HeaderWrite(t, seqNo, 1)], disk.sectors, disk.writesLeft);
    }

    /** Steps 4 and 5 of journal_commit. */
    method Finish(txn: Txn, hdr: Sector)
      requires txn.Valid() && hdr == Header(txn.Entries(), seqNo, 1)
      modifies disk
      ensures disk.Did(old(disk.sectors), old(disk.writesLeft),
                       HomeWrites(txn.Entries()) + [HeaderWrite(txn.Entries(), seqNo, 2)])
    {
      ghost var t := txn.Entries();
      WriteHome(txn);
      ghost var d1, p1 := disk.sectors, disk.writesLeft;
      HeaderMarked(t, seqNo, 1, 2);
      WriteHeader(hdr[3 := 2]);
      DoesThen(old(disk.sectors), old(disk.writesLeft), HomeWrites(t), d1, p1, [HeaderWrite(t, seqNo, 2)], disk.sectors,
               disk.writesLeft);
    }

    /** journal_commit: exactly the writes of CommitWrites, as far as the power lasts. */
    method Commit(txn: Txn) returns (ok: bool)
      requires txn.Valid()
      modifies disk, txn`active, this`seqNo
      ensures ok == (old(txn.active) && old(|txn.targets|) > 0)
      ensures ok ==> disk.Did(old(disk.sectors), old(disk.writesLeft), CommitWrites(old(txn.Entries()), old(seqNo)))
      ensures ok && old(disk.writesLeft) >= 3 + 16 * |txn.targets| && old(SafeTxn(txn.Entries()))
              && old(HasJournal(disk.sectors) && !Pending(disk.sectors)) ==>
                Home(disk.sectors) == Placed(old(Home(disk.sectors)), old(txn.Entries()))
      ensures ok ==> !txn.active && seqNo == (old(seqNo) + 1) % 0x1_0000_0000
      ensures !ok ==> unchanged(disk) && unchanged(txn) && unchanged(this)
    {
      hide Powered, PowerLeft, Does, Header, HomeWrites, Placed, Pending;
      if !txn.active || |txn.targets| == 0 {
        return false;
      }
      ghost var t := txn.Entries();
      var hdr := WriteAhead(txn);
      ghost var d1, p1 := disk.sectors, disk.writesLeft;
      Finish(txn, hdr);
      DoesThen(old(disk.sectors), old(disk.writesLeft), AheadWrites(t, seqNo), d1, p1,
               HomeWrites(t) + [HeaderWrite(t, seqNo, 2)], disk.sectors, disk.writesLeft);
      if old(disk.writesLeft) >= 3 + 16 * |t| && SafeTxn(t) && old(HasJournal(disk.sectors) && !Pending(disk.sectors)) {
        PoweredCommit(old(disk.sectors), old(disk.writesLeft), t, seqNo, disk.sectors, disk.writesLeft);
      }
      seqNo := (seqNo + 1) % 0x1_0000_0000;
      txn.active := false;
      return true;
    }

    /** The header buffer filled in by journal_commit. */
    method HeaderSector(txn: Txn, committed: Word32) returns (hdr: Sector)
      requires txn.Valid()
      ensures hdr == Header(txn.Entries(), seqNo, committed)
    {
      var buf := ZERO_SECTOR;
      buf := buf[0 := JOURNAL_MAGIC][1 := seqNo][2 := |txn.targets|][3 := committed];
      for i := 0 to |txn.targets|
        invariant |buf| == 128 && buf[0] == JOURNAL_MAGIC && buf[1] == seqNo && buf[2] == |txn.targets|
          && buf[3] == committed
        invariant forall k :: 0 <= k < i ==> buf[4 + k] == txn.targets[k]
        invariant forall k :: 4 + i <= k < 128 ==> buf[k] == 0
      {
        buf := buf[4 + i := txn.targets[i]];
      }
      hdr := buf;
      assert hdr == Header(txn.Entries(), seqNo, committed);
    }

    /** journal_recover: 1 when a committed transaction was replayed, 0 when there was none. */
    method Recover() returns (r: int)
      requires SafeJournal(disk.sectors)
      modifies disk
      ensures disk.Did(old(disk.sectors), old(disk.writesLeft), RecoverWrites(old(disk.sectors)))
      ensures r == if Pending(old(disk.sectors)) then 1 else 0
      ensures r == 1 && old(disk.writesLeft) > 8 * LoggedCount(old(disk.sectors)) ==>
                Home(disk.sectors) == Home(Placed(old(disk.sectors), Logged(old(disk.sectors))))
    {
      ghost var d, power := disk.sectors, disk.writesLeft;
      assert InJournal(JOURNAL_START_LBA);
      var hdr := disk.sectors[JOURNAL_START_LBA];
      if hdr[0] != JOURNAL_MAGIC || hdr[3] != 1 {
        return 0;
      }
      Replay(hdr);
      hdr := hdr[3 := 2];
      PoweredConcat(d, power, HomeWrites(Logged(d)), [Write(JOURNAL_START_LBA, hdr)]);
      WriteHeader(hdr);
      RecoveryFinishes(d);
      return 1;
    }

    /** One turn of the replay loop: copy the journal's copy of a block home. */
    method ReplayBlock(lba: nat, finalLba: nat, ghost block: Block)
      requires forall a: nat :: lba <= a < lba + 8 ==> a in disk.sectors
      requires forall j :: 0 <= j < 8 ==> disk.sectors[lba + j] == block[j]
      modifies disk
      ensures disk.Did(old(disk.sectors), old(disk.writesLeft), BlockWrites(finalLba, block))
    {
      var data := disk.ReadBlock(lba);
      assert data == block;
      disk.WriteSectors(finalLba, data);
      assert SectorWrites(finalLba, data) == BlockWrites(finalLba, block);
    }

    method Replay(hdr: Sector)
      requires SafeJournal(disk.sectors) && Pending(disk.sectors)
      requires assert InJournal(JOURNAL_START_LBA); hdr == disk.sectors[JOURNAL_START_LBA]
      modifies disk
      ensures disk.Did(old(disk.sectors), old(disk.writesLeft), HomeWrites(Logged(old(disk.sectors))))
      ensures old(disk.writesLeft) >= 8 * LoggedCount(old(disk.sectors)) ==>
                disk.sectors == Placed(old(disk.sectors), Logged(old(disk.sectors)))
    {
      ghost var d, power := disk.sectors, disk.writesLeft;
      ghost var t := Logged(d);
      HomeWritesOutside(t);
      var lba := JOURNAL_START_LBA + 1;
      var i := 0;
      ghost var home := [];
      while i < hdr[2] && i < JOURNAL_MAX_BLOCKS
        invariant 0 <= i <= |t| && lba == JOURNAL_START_LBA + 1 + 8 * i
        invariant home + HomeWrites(t[i..]) == HomeWrites(t)
        invariant disk.Did(d, power, home)
      {
        JournalSurvives(d, power, home, HomeWrites(t[i..]));
        assert forall a: nat :: lba <= a < lba + 8 ==> InJournal(a);
        ghost var d1, p1 := disk.sectors, disk.writesLeft;
        ReplayBlock(lba, FinalLba(hdr[4 + i]), t[i].data);
        ghost var step := BlockWrites(FinalLba(t[i].target), t[i].data);
        DoesThen(d, power, home, d1, p1, step, disk.sectors, disk.writesLeft);
        HomeWritesNext(t, i, home);
        home := home + step;
        i, lba := i + 1, lba + 8;
      }
      assert t[i..] == [] && home == HomeWrites(t);
      if power >= 8 * |t| {
        PoweredHome(d, power, t, disk.sectors, disk.writesLeft);
      }
    }
  }

  lemma {:induction false} JournalSurvives(d: Image, power: nat, home: seq<Write>, rest: seq<Write>)
    requires HasJournal(d)
    requires forall i :: 0 <= i < |home + rest| ==> !InJournal((home + rest)[i].lba)
    ensures HasJournal(Powered(d, power, home))
    ensures forall lba: nat :: InJournal(lba) ==> Powered(d, power, home)[lba] == d[lba]
  {
    forall i | 0 <= i < |home| ensures !InJournal(home[i].lba) {
      assert (home + rest)[i] == home[i];
    }
    JournalUntouched(d, home);
    if power < |home| {
      JournalUntouched(d, home[..power]);
    }
  }
}
