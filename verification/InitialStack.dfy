/**
 * The initial stack of a program: written by elf_setup_stack (kernel/elf/elf_loader.c)
 * in the layout of section 3.4.1 of the System V AMD64 ABI, read by ldso_main (user/ld.so.c).
 */
module InitialStack {
  import opened Bytes

  const PAGE := 4096
  const MAX_ARGS := 32
  const MAX_ARG_LEN := 256
  const WORD := 0x1_0000_0000_0000_0000

  const AT_NULL := 0
  const AT_PHDR := 3
  const AT_PHENT := 4
  const AT_PHNUM := 5
  const AT_PAGESZ := 6
  const AT_BASE := 7
  const AT_FLAGS := 8
  const AT_ENTRY := 9

  /** struct elf_load_result, as far as the auxiliary vector needs it. */
  datatype Loaded = Loaded(phdr: nat, phent: nat, phnum: nat, base: nat, entry: nat)

  datatype Option<T> = None | Some(value: T)

  predicate LoadedOk(l: Loaded) {
    l.phdr < WORD && l.phent < 0x1_0000 && l.phnum < 0x1_0000 && l.base < WORD && l.entry < WORD
  }

  /** Characters of a C string. */
  predicate IsText(s: seq<byte>) { forall i :: 0 <= i < |s| ==> s[i] != 0 }

  /** The part of an argument that is kept. */
  function Cut(s: seq<byte>): seq<byte> { if |s| < MAX_ARG_LEN then s else s[..MAX_ARG_LEN - 1] }

  /** The bytes that the arguments from `i` on take, terminators included. */
  function Total(args: seq<seq<byte>>, i: nat): nat
    decreases |args| - i
  {
    if i >= |args| then 0 else |Cut(args[i])| + 1 + Total(args, i + 1)
  }

  /** How many arguments are kept. */
  function Kept(args: seq<seq<byte>>): seq<seq<byte>> { if |args| > MAX_ARGS then args[..MAX_ARGS] else args }

  /** The auxiliary vector. */
  function Auxv(load: Option<Loaded>): seq<nat> {
    match load
    case None => []
    case Some(l) =>
      [AT_PHDR, l.phdr, AT_PHENT, l.phent, AT_PHNUM, l.phnum, AT_PAGESZ, PAGE,
       AT_BASE, l.base, AT_FLAGS, 0, AT_ENTRY, l.entry, AT_NULL, 0]
  }

  /** The address of the copy of argument `i`. */
  function ArgPtr(args: seq<seq<byte>>, i: nat, virt: nat): int { virt + PAGE - Total(args, i) }

  function ArgPtrs(args: seq<seq<byte>>, virt: nat, n: nat): (r: seq<int>)
    ensures |r| == n && forall i :: 0 <= i < n ==> r[i] == ArgPtr(args, i, virt)
  {
    seq(n, i requires 0 <= i => ArgPtr(args, i, virt))
  }

  /** The words of the block: argc, argv, NULL, NULL for envp, auxv. */
  function Words(args: seq<seq<byte>>, virt: nat, load: Option<Loaded>): seq<int> {
    [|args|] + ArgPtrs(args, virt, |args|) + [0, 0] + Auxv(load)
  }

  function BlockSize(args: seq<seq<byte>>, load: Option<Loaded>): nat { (|args| + 3 + |Auxv(load)|) * 8 }

  /** It all fits one page. */
  predicate Fits(args: seq<seq<byte>>, load: Option<Loaded>) { Total(args, 0) + BlockSize(args, load) <= PAGE }

  /** Where the block starts: as high as it can, 16-aligned. */
  function StartOf(args: seq<seq<byte>>, load: Option<Loaded>): int {
    (PAGE - Total(args, 0) - BlockSize(args, load)) / 16 * 16
  }

  // ----- what is in the page -----

  /** The copy of argument `i` and its terminator. */
  ghost predicate ArgThere(page: seq<byte>, args: seq<seq<byte>>, i: nat) {
    && i < |args| && Total(args, i) <= PAGE == |page|
    && var o, s := PAGE - Total(args, i), Cut(args[i]);
       o + |s| < PAGE && page[o..o + |s|] == s && page[o + |s|] == 0
  }

  /** The words from `start` on. */
  predicate WordsThere(page: seq<byte>, start: nat, words: seq<int>) {
    start + 8 * |words| <= |page| && forall k :: 0 <= k < |words| ==> WordAt(page, start, k) == words[k]
  }

  /** The `k`th word from `start` on. */
  function WordAt(page: seq<byte>, start: nat, k: nat): nat {
    if start + 8 * k + 8 <= |page| then Field(page, start + 8 * k, 8) else 0
  }

  lemma {:induction false} TotalFrom(args: seq<seq<byte>>, i: nat, j: nat)
    requires i <= j
    ensures Total(args, j) <= Total(args, i)
    decreases j - i
  {
    if i < j {
      TotalFrom(args, i + 1, j);
    }
  }

  /** Writing below the string area keeps the strings. */
  lemma ArgKept(page: seq<byte>, page': seq<byte>, args: seq<seq<byte>>, i: nat)
    requires ArgThere(page, args, i) && |page'| == PAGE && forall a :: PAGE - Total(args, i) <= a < PAGE ==>
      page'[a] == page[a]
    ensures ArgThere(page', args, i)
  {
    var o, s := PAGE - Total(args, i), Cut(args[i]);
    assert page'[o..o + |s|] == page[o..o + |s|];
  }

  /** strlen, up to the limit of an argument. */
  method ArgLen(s: seq<byte>) returns (len: nat)
    requires IsText(s)
    ensures len == |Cut(s)| && s[..len] == Cut(s)
  {
    len := 0;
    while len < |s| && len < MAX_ARG_LEN - 1
      invariant len <= |s| && len <= MAX_ARG_LEN - 1
    {
      len := len + 1;
    }
  }

  /** The loop that writes the strings, last argument first. */
  method WriteStrings(page: array<byte>, args: seq<seq<byte>>) returns (ok: bool, pos: nat)
    requires page.Length == PAGE && forall i :: 0 <= i < |args| ==> IsText(args[i])
    modifies page
    ensures ok == (Total(args, 0) <= PAGE)
    ensures ok ==> pos == PAGE - Total(args, 0) && forall i :: 0 <= i < |args| ==> ArgThere(page[..], args, i)
  {
    pos := PAGE;
    var i: nat := |args|;
    while i > 0
      invariant i <= |args| && Total(args, i) <= PAGE && pos == PAGE - Total(args, i)
      invariant forall j :: i <= j < |args| ==> ArgThere(page[..], args, j)
    {
      i := i - 1;
      var len := ArgLen(args[i]);
      if pos < len + 1 {
        TotalFrom(args, 0, i);
        return false, pos;
      }
      ghost var was := page[..];
      pos := pos - (len + 1);
      forall k | 0 <= k < len {
        page[pos + k] := args[i][k];
      }
      page[pos + len] := 0;
      StringWritten(was, page[..], args, i, pos, len);
    }
    ok := true;
  }

  lemma StringWritten(was: seq<byte>, page: seq<byte>, args: seq<seq<byte>>, i: nat, pos: nat, len: nat)
    requires i < |args| && |was| == |page| == PAGE && len == |Cut(args[i])| && args[i][..len] == Cut(args[i])
    requires pos + len + 1 <= PAGE && pos == PAGE - Total(args, i) && Total(args, i) <= PAGE
    requires page[pos + len] == 0 && (forall k :: 0 <= k < len ==> page[pos + k] == args[i][k])
    requires forall a :: 0 <= a < PAGE && (a < pos || pos + len < a) ==> page[a] == was[a]
    requires forall j :: i < j < |args| ==> ArgThere(was, args, j)
    ensures forall j :: i <= j < |args| ==> ArgThere(page, args, j)
  {
    assert page[pos..pos + len] == args[i][..len];
    assert ArgThere(page, args, i);
    forall j | i < j < |args| ensures ArgThere(page, args, j) {
      TotalFrom(args, i + 1, j);
      ArgKept(was, page, args, j);
    }
  }

  // ----- the block -----

  lemma WordWritten(page: seq<byte>, start: nat, words: seq<int>, n: nat, v: nat)
    requires start + 8 * n + 8 <= |page| && n < |words| && words[n] == v && v < WORD
      && WordsThere(page, start, words[..n])
    ensures WordsThere(PutField(page, start + 8 * n, 8, v), start, words[..n + 1])
  {
    hide Field, PutField;
    var page' := PutField(page, start + 8 * n, 8, v);
    assert Pow256(8) == WORD;
    FieldOfPut(page, start + 8 * n, 8, v, start + 8 * n, 8);
    forall k | 0 <= k < n ensures WordAt(page', start, k) == words[k] {
      FieldOfPut(page, start + 8 * n, 8, v, start + 8 * k, 8);
      assert words[..n][k] == words[k] == WordAt(page, start, k);
    }
  }

  /** Writes a 64-bit word into the page. */
  method PutWord(page: array<byte>, at: nat, v: nat)
    requires at + 8 <= page.Length && v < WORD
    modifies page
    ensures page[..] == PutField(old(page[..]), at, 8, v)
  {
    var b := Le(8, v);
    forall k | 0 <= k < 8 {
      page[at + k] := b[k];
    }
    assert page[..] == PutField(old(page[..]), at, 8, v);
  }

  /** The stores `*p++ = w` of the block, one after the other. */
  method PutWords(page: array<byte>, start: nat, words: seq<int>)
    requires start + 8 * |words| <= page.Length && forall k :: 0 <= k < |words| ==> 0 <= words[k] < WORD
    modifies page
    ensures WordsThere(page[..], start, words)
    ensures forall a :: 0 <= a < page.Length && (a < start || start + 8 * |words| <= a) ==> page[a] == old(page[a])
  {
    assert words[..0] == [];
    for n := 0 to |words|
      invariant WordsThere(page[..], start, words[..n])
      invariant forall a :: 0 <= a < page.Length && (a < start || start + 8 * n <= a) ==> page[a] == old(page[a])
    {
      ghost var was := page[..];
      WordWritten(was, start, words, n, words[n]);
      PutWord(page, start + 8 * n, words[n]);
      assert page[..] == PutField(was, start + 8 * n, 8, words[n]);
    }
    assert words[..|words|] == words;
  }

  lemma WordsFit(args: seq<seq<byte>>, virt: nat, load: Option<Loaded>)
    requires Fits(args, load) && 0 < virt && virt + PAGE < WORD && (load.Some? ==> LoadedOk(load.value))
    ensures 8 * |Words(args, virt, load)| == BlockSize(args, load)
    ensures forall k :: 0 <= k < |Words(args, virt, load)| ==> 0 <= Words(args, virt, load)[k] < WORD
    ensures forall i :: 0 <= i < |args| ==> 0 < ArgPtr(args, i, virt)
  {
    forall i: nat | i < |args| ensures 0 < ArgPtr(args, i, virt) < WORD {
      TotalFrom(args, 0, i);
    }
  }

  /** Everything a program needs is on its stack page. */
  ghost predicate StackReady(page: seq<byte>, args: seq<seq<byte>>, virt: nat, load: Option<Loaded>, start: nat) {
    && start % 16 == 0 && start + BlockSize(args, load) <= PAGE - Total(args, 0)
    && WordsThere(page, start, Words(args, virt, load))
    && forall i :: 0 <= i < |args| ==> ArgThere(page, args, i)
  }

  /**
   * elf_setup_stack: -1 exactly if strings and block do not fit the page; otherwise the
   * stack pointer is 16-aligned and the page holds block and strings, apart from each other.
   */
  method SetupStack(page: array<byte>, virt: nat, argv: seq<seq<byte>>, load: Option<Loaded>)
    returns (r: int, rsp: nat, argvPtr: nat)
    requires page.Length == PAGE && 0 < virt && virt % PAGE == 0 && virt + PAGE < WORD
    requires (forall i :: 0 <= i < |argv| ==> IsText(argv[i])) && (load.Some? ==> LoadedOk(load.value))
    modifies page
    ensures r == if Fits(Kept(argv), load) then 0 else -1
    ensures r == 0 ==> rsp == virt + StartOf(Kept(argv), load) && rsp % 16 == 0 && argvPtr == rsp + 8
    ensures r == 0 ==> StackReady(page[..], Kept(argv), virt, load, rsp - virt)
  {
    hide WordsThere, ArgThere, Total;
    rsp, argvPtr := 0, 0;
    var args := if |argv| > MAX_ARGS then argv[..MAX_ARGS] else argv;
    var ok, pos := WriteStrings(page, args);
    if !ok {
      return -1, 0, 0;
    }
    var blockSize := (|args| + 3 + |Auxv(load)|) * 8;
    if pos < blockSize {
      return -1, 0, 0;
    }
    var start := (pos - blockSize) / 16 * 16;
    WordsFit(args, virt, load);
    ghost var was := page[..];
    PutWords(page, start, Words(args, virt, load));
    forall i | 0 <= i < |args| ensures ArgThere(page[..], args, i) {
      TotalFrom(args, 0, i);
      ArgKept(was, page[..], args, i);
    }
    Aligned(virt, start);
    r, rsp, argvPtr := 0, virt + start, virt + start + 8;
  }

  lemma Aligned(virt: nat, start: nat)
    requires virt % PAGE == 0 && start % 16 == 0
    ensures (virt + start) % 16 == 0
  {
    var q, r := virt / PAGE, start / 16;
    assert virt + start == 16 * (256 * q + r);
  }

  // ----- the reader -----

  /** What the dynamic linker takes from the auxiliary vector. */
  datatype Found = Found(phdr: nat, phnum: nat, base: nat, entry: nat, pagesz: nat)

  /** The skip over a list of pointers: the index of the next zero word. */
  method SkipToNull(page: seq<byte>, start: nat, from: nat, ghost words: seq<int>, ghost zero: nat) returns (p: nat)
    requires WordsThere(page, start, words) && from <= zero < |words| && words[zero] == 0
      && forall k :: from <= k < zero ==> words[k] != 0
    ensures p == zero
  {
    p := from;
    while WordAt(page, start, p) != 0
      invariant from <= p <= zero
      decreases zero - p
    {
      p := p + 1;
    }
  }

  /** One tag and value of the auxiliary vector. */
  function Noted(f: Found, tag: int, val: nat): Found {
    if tag == AT_PHDR then f.(phdr := val)
    else if tag == AT_PHNUM then f.(phnum := val)
    else if tag == AT_BASE then f.(base := val)
    else if tag == AT_ENTRY then f.(entry := val)
    else if tag == AT_PAGESZ then f.(pagesz := val)
    else f
  }

  /** What has been noted after the first `n` pairs. */
  function NotedAll(aux: seq<nat>, n: nat): Found
    requires 2 * n <= |aux|
  {
    if n == 0 then Found(0, 0, 0, 0, 4096) else Noted(NotedAll(aux, n - 1), aux[2 * (n - 1)], aux[2 * (n - 1) + 1])
  }

  /** The head of ldso_main: argc, over argv and envp to the auxiliary vector, which is read to its end. */
  method ReadStack(page: seq<byte>, start: nat, ghost args: seq<seq<byte>>, ghost virt: nat,
                   ghost load: Option<Loaded>) returns (argc: nat, f: Found)
    requires |page| == PAGE && StackReady(page, args, virt, load, start) && load.Some? && LoadedOk(load.value)
    requires 0 < virt && virt + PAGE < WORD && Fits(args, load)
    ensures argc == |args|
    ensures f == Found(load.value.phdr, load.value.phnum, load.value.base, load.value.entry, PAGE)
  {
    hide Fits, Total, ArgThere, WordAt;
    ghost var words, aux, n := Words(args, virt, load), Auxv(load), |args|;
    WordsFit(args, virt, load);
    assert forall k :: 1 <= k < n + 1 ==> words[k] == ArgPtr(args, k - 1, virt) != 0;
    assert words[n + 1] == 0 && words[n + 2] == 0 && words[n + 3..] == aux;
    assert forall k :: 0 <= k < |aux| ==> words[n + 3 + k] == aux[k];
    argc := WordAt(page, start, 0);
    var p := SkipToNull(page, start, 1, words, n + 1);
    p := p + 1;
    p := SkipToNull(page, start, p, words, n + 2);
    p := p + 1;
    f := ReadAuxv(page, start, p, words, load);
  }

  /** The loop over the auxiliary vector. */
  method ReadAuxv(page: seq<byte>, start: nat, av: nat, ghost words: seq<int>, ghost load: Option<Loaded>)
    returns (f: Found)
    requires WordsThere(page, start, words) && load.Some? && av + |Auxv(load)| == |words|
      && forall k :: 0 <= k < |Auxv(load)| ==> words[av + k] == Auxv(load)[k]
    ensures f == Found(load.value.phdr, load.value.phnum, load.value.base, load.value.entry, PAGE)
  {
    hide WordAt;
    ghost var aux := Auxv(load);
    var p := av;
    f := Found(0, 0, 0, 0, 4096);
    ghost var n := 0;
    while WordAt(page, start, p) != AT_NULL
      invariant 0 <= n <= 7 && p == av + 2 * n && f == NotedAll(aux, n)
      decreases 7 - n
    {
      assert words[av + 2 * n] == aux[2 * n] && words[av + (2 * n + 1)] == aux[2 * n + 1];
      var tag, val := WordAt(page, start, p), WordAt(page, start, p + 1);
      f := Noted(f, tag, val);
      p := p + 2;
      n := n + 1;
    }
    assert words[av + 2 * n] == aux[2 * n];
    assert n == 7;
    AllNoted(load);
  }

  lemma AllNoted(load: Option<Loaded>)
    requires load.Some?
    ensures NotedAll(Auxv(load), 7) == Found(load.value.phdr, load.value.phnum, load.value.base, load.value.entry, PAGE)
  {
    var aux := Auxv(load);
    assert NotedAll(aux, 1) == Found(load.value.phdr, 0, 0, 0, 4096);
    assert NotedAll(aux, 3) == Found(load.value.phdr, load.value.phnum, 0, 0, 4096);
    assert NotedAll(aux, 5) == Found(load.value.phdr, load.value.phnum, load.value.base, 0, 4096);
  }

  /** Strings lie above the block and do not overlap each other. */
  lemma StringsApart(page: seq<byte>, args: seq<seq<byte>>, virt: nat, load: Option<Loaded>, start: nat, i: nat, j: nat)
    requires StackReady(page, args, virt, load, start) && i < j < |args|
    ensures ArgPtr(args, i, virt) + |Cut(args[i])| < ArgPtr(args, j, virt)
    ensures virt + start + BlockSize(args, load) <= ArgPtr(args, i, virt)
    ensures ArgPtr(args, j, virt) + |Cut(args[j])| < virt + PAGE
  {
    hide WordsThere, Words, Auxv, Cut;
    TotalFrom(args, 0, i);
    TotalFrom(args, i + 1, j);
    assert ArgThere(page, args, j);
  }

  // ----- what the program's main finds -----

  /** A C string: the bytes up to the first zero. */
  method ReadString(page: seq<byte>, at: nat, ghost text: seq<byte>) returns (s: seq<byte>)
    requires at + |text| < |page| && page[at..at + |text|] == text && page[at + |text|] == 0 && IsText(text)
    ensures s == text
  {
    s := [];
    while page[at + |s|] != 0
      invariant |s| <= |text| && s == text[..|s|]
      decreases |text| - |s|
    {
      assert page[at + |s|] == page[at..at + |text|][|s|];
      s := s + [page[at + |s|]];
    }
  }

  /** argv[i], through its pointer. */
  method ReadArg(page: seq<byte>, start: nat, virt: nat, i: nat, ghost args: seq<seq<byte>>, ghost load: Option<Loaded>)
    returns (s: seq<byte>)
    requires |page| == PAGE && StackReady(page, args, virt, load, start) && i < |args| && IsText(args[i])
    ensures s == Cut(args[i])
  {
    hide Total, Auxv, WordAt;
    assert ArgThere(page, args, i);
    assert Words(args, virt, load)[1 + i] == ArgPtr(args, i, virt);
    var ptr := WordAt(page, start, 1 + i);
    s := ReadString(page, ptr - virt, Cut(args[i]));
  }

  /** A program is given its arguments: the first 32 of them, each up to 255 bytes. */
  method PassArgs(page: array<byte>, virt: nat, argv: seq<seq<byte>>, load: Option<Loaded>)
    returns (r: int, argc: nat, seen: seq<seq<byte>>)
    requires page.Length == PAGE && 0 < virt && virt % PAGE == 0 && virt + PAGE < WORD
    requires (forall i :: 0 <= i < |argv| ==> IsText(argv[i])) && (load.Some? ==> LoadedOk(load.value))
    modifies page
    ensures r == 0 ==> |seen| == argc == if |argv| <= 32 then |argv| else 32
    ensures r == 0 ==> forall i :: 0 <= i < |seen| ==>
      seen[i] == if |argv[i]| <= 255 then argv[i] else argv[i][..255]
  {
    var rsp, argvPtr;
    r, rsp, argvPtr := SetupStack(page, virt, argv, load);
    argc, seen := 0, [];
    if r != 0 {
      return;
    }
    hide StackReady, Fits;
    ghost var args := Kept(argv);
    var stack := page[..];
    argc := ReadCount(stack, rsp - virt, args, virt, load);
    for i := 0 to argc
      invariant |seen| == i && forall k :: 0 <= k < i ==> seen[k] == Cut(args[k])
    {
      var s := ReadArg(stack, rsp - virt, virt, i, args, load);
      seen := seen + [s];
    }
  }

  method ReadCount(page: seq<byte>, start: nat, ghost args: seq<seq<byte>>, ghost virt: nat, ghost load: Option<Loaded>)
    returns (argc: nat)
    requires |page| == PAGE && StackReady(page, args, virt, load, start)
    ensures argc == |args|
  {
    hide WordAt, ArgThere, Auxv, Total;
    assert Words(args, virt, load)[0] == |args|;
    argc := WordAt(page, start, 0);
  }
}
