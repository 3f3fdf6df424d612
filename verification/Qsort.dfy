/** qsort of the C library (user/lib/stdlib.c): in place, any comparator, logarithmic recursion depth. */
module Qsort {

  type Comparator<!T> = (T, T) -> int

  predicate Le<T>(cmp: Comparator<T>, a: T, b: T) { cmp(a, b) <= 0 }

  /** The comparator is a total preorder. */
  ghost predicate Ordering<T(!new)>(cmp: Comparator<T>) {
    && (forall a, b :: Le(cmp, a, b) || Le(cmp, b, a))
    && (forall a, b, c :: Le(cmp, a, b) && Le(cmp, b, c) ==> Le(cmp, a, c))
  }

  ghost predicate Sorted<T>(cmp: Comparator<T>, s: seq<T>) {
    forall i, j :: 0 <= i < j < |s| ==> Le(cmp, s[i], s[j])
  }

  /** Everything in `s` is at most everything in `t`. */
  ghost predicate Below<T>(cmp: Comparator<T>, s: seq<T>, t: seq<T>) {
    forall i, j :: 0 <= i < |s| && 0 <= j < |t| ==> Le(cmp, s[i], t[j])
  }

  function Pow2(n: nat): nat { if n == 0 then 1 else 2 * Pow2(n - 1) }

  lemma LeTotal<T(!new)>(cmp: Comparator<T>, a: T, b: T)
    requires Ordering(cmp) && !Le(cmp, a, b)
    ensures Le(cmp, b, a)
  {
  }

  lemma LeTrans<T(!new)>(cmp: Comparator<T>, a: T, b: T, c: T)
    requires Ordering(cmp) && Le(cmp, a, b) && Le(cmp, b, c)
    ensures Le(cmp, a, c)
  {
  }

  /** `t` is `s` with the range `lo..hi` rearranged and nothing else touched. */
  ghost predicate Perm<T>(s: seq<T>, t: seq<T>, lo: nat, hi: nat) {
    && lo <= hi <= |s| == |t| && s[..lo] == t[..lo] && s[hi..] == t[hi..]
    && multiset(s[lo..hi]) == multiset(t[lo..hi])
  }

  lemma PermRefl<T>(s: seq<T>, lo: nat, hi: nat)
    requires lo <= hi <= |s|
    ensures Perm(s, s, lo, hi)
  {
  }

  lemma PermTrans<T>(s: seq<T>, t: seq<T>, u: seq<T>, lo: nat, hi: nat)
    requires Perm(s, t, lo, hi) && Perm(t, u, lo, hi)
    ensures Perm(s, u, lo, hi)
  {
  }

  function Swapped<T>(s: seq<T>, i: nat, j: nat): seq<T>
    requires i < |s| && j < |s|
  {
    s[i := s[j]][j := s[i]]
  }

  lemma PermSwap<T>(s: seq<T>, i: nat, j: nat, lo: nat, hi: nat)
    requires lo <= i < hi <= |s| && lo <= j < hi
    ensures Perm(s, Swapped(s, i, j), lo, hi)
  {
    var t := Swapped(s, i, j);
    assert t[lo..hi] == s[lo..hi][i - lo := s[lo..hi][j - lo]][j - lo := s[lo..hi][i - lo]];
  }

  /** Rearranging a part is rearranging the whole. */
  lemma PermWiden<T>(s: seq<T>, t: seq<T>, lo: nat, hi: nat, lo': nat, hi': nat)
    requires Perm(s, t, lo, hi) && lo' <= lo && hi <= hi' <= |s|
    ensures Perm(s, t, lo', hi')
  {
    assert s[lo'..hi'] == s[..lo][lo'..] + s[lo..hi] + s[hi..][..hi' - hi];
    assert t[lo'..hi'] == t[..lo][lo'..] + t[lo..hi] + t[hi..][..hi' - hi];
    assert s[..lo'] == s[..lo][..lo'] && t[..lo'] == t[..lo][..lo'];
    assert s[hi'..] == s[hi..][hi' - hi..] && t[hi'..] == t[hi..][hi' - hi..];
  }

  lemma BelowPermuted<T>(cmp: Comparator<T>, s: seq<T>, t: seq<T>, s': seq<T>, t': seq<T>)
    requires Below(cmp, s, t) && multiset(s') == multiset(s) && multiset(t') == multiset(t)
    ensures Below(cmp, s', t')
  {
    forall i, j | 0 <= i < |s'| && 0 <= j < |t'| ensures Le(cmp, s'[i], t'[j]) {
      assert s'[i] in multiset(s') && t'[j] in multiset(t');
      assert s'[i] in s && t'[j] in t;
    }
  }

  /** Sorted parts in order make a sorted whole. */
  lemma SortedConcat<T>(cmp: Comparator<T>, s: seq<T>, t: seq<T>)
    requires Sorted(cmp, s) && Sorted(cmp, t) && Below(cmp, s, t)
    ensures Sorted(cmp, s + t)
  {
    var u := s + t;
    forall i, j | 0 <= i < j < |u| ensures Le(cmp, u[i], u[j]) {
      if j >= |s| {
        assert u[j] == t[j - |s|];
      }
      assert i < |s| ==> u[i] == s[i];
    }
  }

  /** qsort_swap. */
  method Swap<T>(a: array<T>, i: nat, j: nat)
    requires i < a.Length && j < a.Length
    modifies a
    ensures a[..] == Swapped(old(a[..]), i, j)
  {
    a[i], a[j] := a[j], a[i];
  }

  /** The cutoff for short ranges: insertion sort. */
  method InsertionSort<T(!new)>(a: array<T>, lo: nat, hi: nat, cmp: Comparator<T>)
    requires Ordering(cmp) && lo < hi <= a.Length
    modifies a
    ensures Perm(old(a[..]), a[..], lo, hi) && Sorted(cmp, a[..][lo..hi])
  {
    for i := lo + 1 to hi
      invariant Perm(old(a[..]), a[..], lo, hi) && Sorted(cmp, a[..][lo..i])
    {
      ghost var s := a[..];
      hide Perm, Ordering, Sorted;
      SinkLast(a, lo, hi, i, cmp);
      PermTrans(old(a[..]), s, a[..], lo, hi);
    }
  }

  /** Sorted but for the element at `j`, which belongs at `j` or to the left of it. */
  ghost predicate Sinking<T>(cmp: Comparator<T>, s: seq<T>, lo: nat, i: nat, j: nat) {
    lo <= j <= i < |s| && forall x, y :: lo <= x < y <= i && y != j ==> Le(cmp, s[x], s[y])
  }

  lemma SinkStart<T>(cmp: Comparator<T>, s: seq<T>, lo: nat, i: nat)
    requires lo < i < |s| && Sorted(cmp, s[lo..i])
    ensures Sinking(cmp, s, lo, i, i)
  {
    assert forall x :: lo <= x < i ==> s[x] == s[lo..i][x - lo];
  }

  lemma SinkStep<T(!new)>(cmp: Comparator<T>, s: seq<T>, lo: nat, i: nat, j: nat)
    requires Ordering(cmp) && Sinking(cmp, s, lo, i, j) && lo < j && !Le(cmp, s[j - 1], s[j])
    ensures Sinking(cmp, Swapped(s, j, j - 1), lo, i, j - 1)
  {
    LeTotal(cmp, s[j - 1], s[j]);
    hide Ordering;
  }

  lemma SinkDone<T(!new)>(cmp: Comparator<T>, s: seq<T>, lo: nat, i: nat, j: nat)
    requires Ordering(cmp) && Sinking(cmp, s, lo, i, j) && (j == lo || Le(cmp, s[j - 1], s[j]))
    ensures Sorted(cmp, s[lo..i + 1])
  {
    hide Ordering;
    forall x | lo <= x < j ensures Le(cmp, s[x], s[j]) {
      if x < j - 1 {
        LeTrans(cmp, s[x], s[j - 1], s[j]);
      }
    }
  }

  method SinkLast<T(!new)>(a: array<T>, lo: nat, hi: nat, i: nat, cmp: Comparator<T>)
    requires Ordering(cmp) && lo < i < hi <= a.Length && Sorted(cmp, a[..][lo..i])
    modifies a
    ensures Perm(old(a[..]), a[..], lo, hi) && Sorted(cmp, a[..][lo..i + 1])
  {
    hide Ordering, Perm, Sinking, Sorted, Swapped;
    var j: nat := i;
    SinkStart(cmp, a[..], lo, i);
    PermRefl(a[..], lo, hi);
    while j > lo && cmp(a[j - 1], a[j]) > 0
      invariant lo <= j <= i && Perm(old(a[..]), a[..], lo, hi) && Sinking(cmp, a[..], lo, i, j)
    {
      ghost var s := a[..];
      SinkStep(cmp, s, lo, i, j);
      PermSwap(s, j, j - 1, lo, hi);
      Swap(a, j, j - 1);
      PermTrans(old(a[..]), s, a[..], lo, hi);
      j := j - 1;
    }
    SinkDone(cmp, a[..], lo, i, j);
  }

  /** The state of the partition loop: at most the pivot on the left, more than the pivot on the right. */
  ghost predicate Parted<T>(cmp: Comparator<T>, s: seq<T>, lo: nat, i: nat, j: nat, hi: nat) {
    && lo < i <= j <= hi <= |s|
    && (forall x :: lo < x < i ==> Le(cmp, s[x], s[lo]))
    && (forall x :: j <= x < hi ==> !Le(cmp, s[x], s[lo]))
  }

  lemma PartStart<T>(cmp: Comparator<T>, s: seq<T>, lo: nat, hi: nat)
    requires lo + 1 < hi <= |s|
    ensures Parted(cmp, s, lo, lo + 1, hi, hi)
  {
  }

  lemma PartLeft<T>(cmp: Comparator<T>, s: seq<T>, lo: nat, i: nat, j: nat, hi: nat)
    requires Parted(cmp, s, lo, i, j, hi) && i < j && Le(cmp, s[i], s[lo])
    ensures Parted(cmp, s, lo, i + 1, j, hi)
  {
  }

  lemma PartRight<T>(cmp: Comparator<T>, s: seq<T>, lo: nat, i: nat, j: nat, hi: nat)
    requires Parted(cmp, s, lo, i, j, hi) && i < j && !Le(cmp, s[j - 1], s[lo])
    ensures Parted(cmp, s, lo, i, j - 1, hi)
  {
  }

  lemma PartSwap<T>(cmp: Comparator<T>, s: seq<T>, lo: nat, i: nat, j: nat, hi: nat)
    requires Parted(cmp, s, lo, i, j, hi) && i < j && Le(cmp, s[j - 1], s[lo])
    ensures Parted(cmp, Swapped(s, i, j - 1), lo, i + 1, j, hi)
  {
  }

  lemma PartDone<T(!new)>(cmp: Comparator<T>, s: seq<T>, lo: nat, i: nat, hi: nat)
    requires Ordering(cmp) && Parted(cmp, s, lo, i, i, hi)
    ensures Finished(cmp, Swapped(s, lo, i - 1), lo, i - 1, hi)
  {
    hide Ordering, Finished;
    SplitIsFinal(cmp, Swapped(s, lo, i - 1), lo, i - 1, hi);
  }

  /** What is at `split` is in its final place. */
  ghost predicate Finished<T>(cmp: Comparator<T>, s: seq<T>, lo: nat, split: nat, hi: nat) {
    && lo <= split < hi <= |s|
    && Below(cmp, s[lo..split], s[split..hi]) && Below(cmp, s[lo..split + 1], s[split + 1..hi])
  }

  /** Partition around the middle element. */
  method Partition<T(!new)>(a: array<T>, lo: nat, hi: nat, cmp: Comparator<T>) returns (split: nat)
    requires Ordering(cmp) && lo + 1 < hi <= a.Length
    modifies a
    ensures lo <= split < hi && Perm(old(a[..]), a[..], lo, hi) && Finished(cmp, a[..], lo, split, hi)
  {
    hide Ordering, Perm, Finished, Swapped, Parted, Le;
    SwapWithin(a, lo + (hi - lo) / 2, lo, lo, hi);
    ghost var s := a[..];
    PartStart(cmp, s, lo, hi);
    var i := Separate(a, lo, hi, cmp);
    ghost var t := a[..];
    PermTrans(old(a[..]), s, t, lo, hi);
    PartDone(cmp, t, lo, i, hi);
    SwapWithin(a, lo, i - 1, lo, hi);
    PermTrans(old(a[..]), t, a[..], lo, hi);
    split := i - 1;
  }

  method SwapWithin<T>(a: array<T>, i: nat, j: nat, lo: nat, hi: nat)
    requires lo <= i < hi <= a.Length && lo <= j < hi
    modifies a
    ensures a[..] == Swapped(old(a[..]), i, j) && Perm(old(a[..]), a[..], lo, hi)
  {
    hide Perm, Swapped;
    PermSwap(a[..], i, j, lo, hi);
    Swap(a, i, j);
  }

  /** The outer partition loop. */
  method Separate<T>(a: array<T>, lo: nat, hi: nat, cmp: Comparator<T>) returns (i: nat)
    requires lo + 1 < hi <= a.Length && Parted(cmp, a[..], lo, lo + 1, hi, hi)
    modifies a
    ensures lo < i <= hi && Parted(cmp, a[..], lo, i, i, hi) && Perm(old(a[..]), a[..], lo, hi)
  {
    hide Perm, Swapped, Parted, Le;
    PermRefl(a[..], lo, hi);
    i := lo + 1;
    var j: nat := hi;
    while true
      invariant lo < i <= j <= hi && Parted(cmp, a[..], lo, i, j, hi) && Perm(old(a[..]), a[..], lo, hi)
      decreases j - i
    {
      i, j := ScanInward(a, lo, i, j, hi, cmp);
      if i >= j {
        break;
      }
      ghost var s := a[..];
      PartSwap(cmp, s, lo, i, j, hi);
      SwapWithin(a, i, j - 1, lo, hi);
      PermTrans(old(a[..]), s, a[..], lo, hi);
      i := i + 1;
    }
  }

  /** The two inner scans: over what is already on its side of the pivot. */
  method ScanInward<T>(a: array<T>, lo: nat, i0: nat, j0: nat, hi: nat, cmp: Comparator<T>) returns (i: nat, j: nat)
    requires hi <= a.Length && lo < i0 <= j0 <= hi && Parted(cmp, a[..], lo, i0, j0, hi)
    ensures i0 <= i <= j <= j0 && Parted(cmp, a[..], lo, i, j, hi)
    ensures i < j ==> Le(cmp, a[..][j - 1], a[..][lo])
  {
    hide Parted;
    i, j := i0, j0;
    while i < j && cmp(a[i], a[lo]) <= 0
      invariant i0 <= i <= j && Parted(cmp, a[..], lo, i, j, hi)
    {
      PartLeft(cmp, a[..], lo, i, j, hi);
      i := i + 1;
    }
    while j > i && cmp(a[j - 1], a[lo]) > 0
      invariant i <= j <= j0 && Parted(cmp, a[..], lo, i, j, hi)
    {
      PartRight(cmp, a[..], lo, i, j, hi);
      j := j - 1;
    }
  }

  lemma SplitIsFinal<T(!new)>(cmp: Comparator<T>, s: seq<T>, lo: nat, k: nat, hi: nat)
    requires Ordering(cmp) && lo <= k < hi <= |s|
    requires forall x :: lo <= x < k ==> Le(cmp, s[x], s[k])
    requires forall x :: k < x < hi ==> !Le(cmp, s[x], s[k])
    ensures Finished(cmp, s, lo, k, hi)
  {
    hide Ordering;
    forall x | k <= x < hi ensures Le(cmp, s[k], s[x]) {
      if x == k {
        LeRefl(cmp, s[k]);
      } else {
        LeTotal(cmp, s[x], s[k]);
      }
    }
    forall x, y | lo <= x <= k && k <= y < hi ensures Le(cmp, s[x], s[y]) {
      if x < k {
        LeTrans(cmp, s[x], s[k], s[y]);
      }
    }
    hide Le;
  }

  lemma LeRefl<T(!new)>(cmp: Comparator<T>, a: T)
    requires Ordering(cmp)
    ensures Le(cmp, a, a)
  {
  }

  // ----- the recursion -----

  /** While `lo..hi` is still to be sorted, what lies outside it in `from..to` is in its final place. */
  ghost predicate Framed<T>(cmp: Comparator<T>, s: seq<T>, from: nat, lo: nat, hi: nat, to: nat) {
    && from <= lo <= hi <= to <= |s|
    && Sorted(cmp, s[from..lo]) && Sorted(cmp, s[hi..to])
    && Below(cmp, s[from..lo], s[lo..hi]) && Below(cmp, s[lo..hi], s[hi..to]) && Below(cmp, s[from..lo], s[hi..to])
  }

  /** Sorting the rest finishes the job. */
  lemma FramedDone<T>(cmp: Comparator<T>, s: seq<T>, from: nat, lo: nat, hi: nat, to: nat)
    requires Framed(cmp, s, from, lo, hi, to) && Sorted(cmp, s[lo..hi])
    ensures Sorted(cmp, s[from..to])
  {
    SortedConcat(cmp, s[from..lo], s[lo..hi]);
    assert s[from..lo] + s[lo..hi] == s[from..hi];
    hide Sorted;
    BelowJoinLeft(cmp, s[from..lo], s[lo..hi], s[hi..to]);
    SortedConcat(cmp, s[from..hi], s[hi..to]);
    assert s[from..hi] + s[hi..to] == s[from..to];
  }

  lemma BelowJoinLeft<T>(cmp: Comparator<T>, a: seq<T>, b: seq<T>, c: seq<T>)
    requires Below(cmp, a, c) && Below(cmp, b, c)
    ensures Below(cmp, a + b, c)
  {
  }

  lemma BelowJoinRight<T>(cmp: Comparator<T>, a: seq<T>, b: seq<T>, c: seq<T>)
    requires Below(cmp, a, b) && Below(cmp, a, c)
    ensures Below(cmp, a, b + c)
  {
  }

  /** A rearrangement inside `lo..hi` keeps the frame. */
  lemma FramedPerm<T>(cmp: Comparator<T>, s: seq<T>, t: seq<T>, from: nat, lo: nat, hi: nat, to: nat)
    requires Framed(cmp, s, from, lo, hi, to) && Perm(s, t, lo, hi)
    ensures Framed(cmp, t, from, lo, hi, to)
  {
    hide Sorted, Below;
    assert t[from..lo] == t[..lo][from..] == s[from..lo];
    assert t[hi..to] == t[hi..][..to - hi] == s[hi..to];
    BelowPermuted(cmp, s[from..lo], s[lo..hi], t[from..lo], t[lo..hi]);
    BelowPermuted(cmp, s[lo..hi], s[hi..to], t[lo..hi], t[hi..to]);
  }

  /** The left part `lo..split` is sorted: only the part right of `split` is left to do. */
  lemma FramedRight<T>(cmp: Comparator<T>, s: seq<T>, from: nat, lo: nat, split: nat, hi: nat, to: nat)
    requires Framed(cmp, s, from, lo, hi, to) && Finished(cmp, s, lo, split, hi) && Sorted(cmp, s[lo..split])
    ensures Framed(cmp, s, from, split + 1, hi, to)
  {
    var a, b, m, c, d := s[from..lo], s[lo..split], [s[split]], s[split + 1..hi], s[hi..to];
    assert s[lo..split + 1] == b + m && s[split..hi] == m + c;
    assert s[lo..hi] == s[lo..split + 1] + c;
    assert s[from..split + 1] == a + (b + m);
    assert Below(cmp, b, m) && Sorted(cmp, m);
    SortedConcat(cmp, b, m);
    assert Below(cmp, a, b + m) && Below(cmp, a, c) && Below(cmp, c, d)
      && Below(cmp, b + m, d) by { BelowParts(cmp, a, b + m, c, d); }
    SortedConcat(cmp, a, b + m);
    hide Sorted;
    BelowJoinLeft(cmp, a, b + m, c);
    BelowJoinLeft(cmp, a, b + m, d);
  }

  /** The right part after `split` is sorted: only the part left of it is left to do. */
  lemma FramedLeft<T>(cmp: Comparator<T>, s: seq<T>, from: nat, lo: nat, split: nat, hi: nat, to: nat)
    requires Framed(cmp, s, from, lo, hi, to) && Finished(cmp, s, lo, split, hi) && Sorted(cmp, s[split + 1..hi])
    ensures Framed(cmp, s, from, lo, split, to)
  {
    var a, b, m, c, d := s[from..lo], s[lo..split], [s[split]], s[split + 1..hi], s[hi..to];
    assert s[lo..split + 1] == b + m && s[lo..hi] == b + (m + c) && s[split..hi] == m + c;
    assert s[split..to] == (m + c) + d;
    assert Below(cmp, m, c) by { assert Below(cmp, b + m, c); assert (b + m)[|b|] == m[0]; }
    SortedConcat(cmp, m, c);
    assert Below(cmp, a, b) && Below(cmp, a, m + c) && Below(cmp, b, d)
      && Below(cmp, m + c, d) by { BelowParts(cmp, a, b, m + c, d); }
    SortedConcat(cmp, m + c, d);
    hide Sorted;
    BelowJoinRight(cmp, b, m + c, d);
    BelowJoinRight(cmp, a, m + c, d);
  }

  lemma BelowParts<T>(cmp: Comparator<T>, a: seq<T>, b: seq<T>, c: seq<T>, d: seq<T>)
    requires Below(cmp, a, b + c) && Below(cmp, b + c, d)
    ensures Below(cmp, a, b) && Below(cmp, a, c) && Below(cmp, b, d) && Below(cmp, c, d)
  {
    var e := b + c;
    assert forall i :: 0 <= i < |b| ==> b[i] == e[i];
    assert forall i :: 0 <= i < |c| ==> c[i] == e[|b| + i];
  }

  /** Sorting a part keeps the partition around it, whichever side the part lies on. */
  lemma FinishedPerm<T>(cmp: Comparator<T>, s: seq<T>, t: seq<T>, lo: nat, split: nat, hi: nat, from: nat, to: nat)
    requires Finished(cmp, s, lo, split, hi) && Perm(s, t, from, to)
    requires (from == lo && to == split) || (from == split + 1 && to == hi)
    ensures Finished(cmp, t, lo, split, hi)
  {
    hide Below, Perm;
    PermParts(s, t, lo, split, hi, from, to);
    BelowPermuted(cmp, s[lo..split], s[split..hi], t[lo..split], t[split..hi]);
    BelowPermuted(cmp, s[lo..split + 1], s[split + 1..hi], t[lo..split + 1], t[split + 1..hi]);
  }

  lemma PermParts<T>(s: seq<T>, t: seq<T>, lo: nat, split: nat, hi: nat, from: nat, to: nat)
    requires lo <= split < hi <= |s| && Perm(s, t, from, to)
    requires (from == lo && to == split) || (from == split + 1 && to == hi)
    ensures |t| == |s| && multiset(s[lo..split]) == multiset(t[lo..split])
      && multiset(s[split..hi]) == multiset(t[split..hi])
    ensures multiset(s[lo..split + 1]) == multiset(t[lo..split + 1])
      && multiset(s[split + 1..hi]) == multiset(t[split + 1..hi])
  {
    if from == lo {
      assert s[lo..split + 1] == s[lo..split] + [s[split]] && t[lo..split + 1] == t[lo..split] + [t[split]];
      assert s[split..hi] == s[split..][..hi - split] && t[split..hi] == t[split..][..hi - split];
      assert s[split + 1..hi] == s[split..hi][1..] && t[split + 1..hi] == t[split..hi][1..];
      assert s[split] == s[split..][0] && t[split] == t[split..][0];
    } else {
      assert s[split..hi] == [s[split]] + s[split + 1..hi] && t[split..hi] == [t[split]] + t[split + 1..hi];
      assert s[lo..split + 1] == s[..split + 1][lo..] && t[lo..split + 1] == t[..split + 1][lo..];
      assert s[lo..split] == s[lo..split + 1][..split - lo] && t[lo..split] == t[lo..split + 1][..split - lo];
      assert s[split] == s[..split + 1][split] && t[split] == t[..split + 1][split];
    }
  }

  lemma FramedStart<T>(cmp: Comparator<T>, s: seq<T>, lo: nat, hi: nat)
    requires lo <= hi <= |s|
    ensures Framed(cmp, s, lo, lo, hi, hi)
  {
  }

  lemma SortedSmall<T>(cmp: Comparator<T>, s: seq<T>)
    requires |s| < 2
    ensures Sorted(cmp, s)
  {
  }

  /** Halving: the smaller side of a partition costs one level of the logarithm. */
  lemma HalvesDepth(small: nat, whole: nat, depth: nat)
    requires 2 * small < whole && 2 <= whole && Pow2(depth) <= Max(1, small)
    ensures Pow2(depth + 1) <= Max(1, whole)
  {
  }

  function Max(a: int, b: int): int { if a < b then b else a }

  /** One pass of the loop of qsort_rec: partition and sort the smaller side. */
  method Narrow<T(!new)>(a: array<T>, lo: nat, hi: nat, cmp: Comparator<T>)
    returns (lo': nat, hi': nat, ghost depth: nat)
    requires Ordering(cmp) && hi <= a.Length && hi - lo > 12
    modifies a
    ensures lo <= lo' <= hi' <= hi && hi' - lo' < hi - lo && Perm(old(a[..]), a[..], lo, hi)
    ensures forall from: nat, to: nat :: Framed(cmp, old(a[..]), from, lo, hi, to) ==>
      Framed(cmp, a[..], from, lo', hi', to)
    ensures Pow2(depth) <= Max(1, hi - lo)
    decreases hi - lo, 0
  {
    hide Ordering, Perm, Framed, Finished, Sorted, Pow2;
    var split := Partition(a, lo, hi, cmp);
    ghost var s := a[..];
    if split - lo < hi - split {
      depth := QsortRec(a, lo, split, cmp);
      HalvesDepth(split - lo, hi - lo, depth);
      depth := depth + 1;
      FinishedPerm(cmp, s, a[..], lo, split, hi, lo, split);
      PermWiden(s, a[..], lo, split, lo, hi);
      lo', hi' := split + 1, hi;
    } else {
      depth := QsortRec(a, split + 1, hi, cmp);
      HalvesDepth(hi - split - 1, hi - lo, depth);
      depth := depth + 1;
      FinishedPerm(cmp, s, a[..], lo, split, hi, split + 1, hi);
      PermWiden(s, a[..], split + 1, hi, lo, hi);
      lo', hi' := lo, split;
    }
    PermTrans(old(a[..]), s, a[..], lo, hi);
    forall from: nat, to: nat | Framed(cmp, old(a[..]), from, lo, hi, to)
      ensures Framed(cmp, a[..], from, lo', hi', to) {
      FramedPerm(cmp, old(a[..]), a[..], from, lo, hi, to);
      if lo' == lo {
        FramedLeft(cmp, a[..], from, lo, split, hi, to);
      } else {
        FramedRight(cmp, a[..], from, lo, split, hi, to);
      }
    }
  }

  /**
   * qsort_rec. `depth` counts the recursive calls that are live at once beyond
   * this one: at most the logarithm of the length of the range.
   */
  method QsortRec<T(!new)>(a: array<T>, lo: nat, hi: nat, cmp: Comparator<T>) returns (ghost depth: nat)
    requires Ordering(cmp) && lo <= hi <= a.Length
    modifies a
    ensures Sorted(cmp, a[..][lo..hi]) && Perm(old(a[..]), a[..], lo, hi)
    ensures Pow2(depth) <= Max(1, hi - lo)
    decreases hi - lo, 1
  {
    hide Ordering, Perm, Framed, Sorted;
    var l: nat, h: nat := lo, hi;
    depth := 0;
    FramedStart(cmp, a[..], lo, hi);
    PermRefl(a[..], lo, hi);
    while l + 1 < h
      invariant lo <= l <= h <= hi && Perm(old(a[..]), a[..], lo, hi) && Framed(cmp, a[..], lo, l, h, hi)
      invariant Pow2(depth) <= Max(1, hi - lo)
      decreases h - l
    {
      ghost var s := a[..];
      if h - l <= 12 {
        InsertionSort(a, l, h, cmp);
        PermWiden(s, a[..], l, h, lo, hi);
        PermTrans(old(a[..]), s, a[..], lo, hi);
        FramedPerm(cmp, s, a[..], lo, l, h, hi);
        FramedDone(cmp, a[..], lo, l, h, hi);
        return;
      }
      ghost var d;
      ghost var l0, h0 := l, h;
      l, h, d := Narrow(a, l, h, cmp);
      depth := Max(depth, d);
      PermWiden(s, a[..], l0, h0, lo, hi);
      PermTrans(old(a[..]), s, a[..], lo, hi);
    }
    SortedSmall(cmp, a[..][l..h]);
    FramedDone(cmp, a[..], lo, l, h, hi);
  }

  /** qsort: a sorted rearrangement of the first `n` elements, and nothing else changes. */
  method Qsort<T(!new)>(a: array<T>, n: nat, cmp: Comparator<T>) returns (ghost depth: nat)
    requires Ordering(cmp) && n <= a.Length
    modifies a
    ensures Sorted(cmp, a[..n]) && multiset(a[..n]) == multiset(old(a[..n])) && a[n..] == old(a[n..])
    ensures Pow2(depth) <= Max(1, n)
  {
    hide Ordering, Sorted;
    depth := 0;
    if n < 2 {
      SortedSmall(cmp, a[..n]);
      return;
    }
    depth := QsortRec(a, 0, n, cmp);
    assert a[..][0..n] == a[..n] && old(a[..])[0..n] == old(a[..n]);
    assert a[..][n..] == a[n..] && old(a[..])[n..] == old(a[n..]);
  }
}
