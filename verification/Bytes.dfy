/** Byte strings: little-endian fields, in-place overwriting, and the bits of a bitmap. */
module Bytes {

  type byte = x: nat | x < 256

  function Pow256(n: nat): nat { if n == 0 then 1 else 256 * Pow256(n - 1) }

  /** The `n` low bytes of `v`, least significant first. */
  function Le(n: nat, v: nat): (r: seq<byte>)
    ensures |r| == n
  {
    if n == 0 then [] else [v % 256] + Le(n - 1, v / 256)
  }

  /** The number a little-endian byte string stands for. */
  function Val(s: seq<byte>): nat {
    if s == [] then 0 else s[0] + 256 * Val(s[1..])
  }

  lemma {:induction false} ValLe(n: nat, v: nat)
    requires v < Pow256(n)
    ensures Val(Le(n, v)) == v
  {
    if n > 0 {
      ValLe(n - 1, v / 256);
      assert Le(n, v)[1..] == Le(n - 1, v / 256);
    }
  }

  lemma {:induction false} ValBound(s: seq<byte>)
    ensures Val(s) < Pow256(|s|)
  {
    if s != [] {
      ValBound(s[1..]);
    }
  }

  /** Writing a number back as its bytes gives the bytes it was read from. */
  lemma {:induction false} LeVal(s: seq<byte>)
    ensures Le(|s|, Val(s)) == s
  {
    if s != [] {
      LeVal(s[1..]);
      assert Val(s) % 256 == s[0] && Val(s) / 256 == Val(s[1..]);
      assert s == [s[0]] + s[1..];
    }
  }

  lemma {:induction false} ValZeros(s: seq<byte>)
    requires forall i :: 0 <= i < |s| ==> s[i] == 0
    ensures Val(s) == 0
  {
    if s != [] {
      ValZeros(s[1..]);
    }
  }

  function Zeros(n: nat): (r: seq<byte>)
    ensures |r| == n && forall i :: 0 <= i < n ==> r[i] == 0
  {
    seq(n, i => 0)
  }

  /** `s` with `t` copied over it at `off`. */
  function Splice(s: seq<byte>, off: nat, t: seq<byte>): (r: seq<byte>)
    requires off + |t| <= |s|
    ensures |r| == |s|
    ensures forall i :: 0 <= i < |s| ==> r[i] == if off <= i < off + |t| then t[i - off] else s[i]
  {
    s[..off] + t + s[off + |t|..]
  }

  lemma SubSlice(b: seq<byte>, o: nat, n: nat, i: nat, j: nat)
    requires o + n <= |b| && i <= j <= n
    ensures b[o..o + n][i..j] == b[o + i..o + j]
  {
    var s, t := b[o..o + n][i..j], b[o + i..o + j];
    forall k | 0 <= k < j - i ensures s[k] == t[k] {
    }
  }

  /** The `n`-byte number at `off`. */
  function Field(s: seq<byte>, off: nat, n: nat): nat
    requires off + n <= |s|
  {
    Val(s[off..off + n])
  }

  function PutField(s: seq<byte>, off: nat, n: nat, v: nat): (r: seq<byte>)
    requires off + n <= |s|
    ensures |r| == |s|
  {
    Splice(s, off, Le(n, v))
  }

  lemma FieldOfPut(s: seq<byte>, off: nat, n: nat, v: nat, off': nat, n': nat)
    requires off + n <= |s| && off' + n' <= |s| && v < Pow256(n)
    ensures off' == off && n' == n ==> Field(PutField(s, off, n, v), off', n') == v
    ensures off' + n' <= off || off + n <= off' ==> Field(PutField(s, off, n, v), off', n') == Field(s, off', n')
  {
    var r := PutField(s, off, n, v);
    if off' == off && n' == n {
      assert r[off..off + n] == Le(n, v);
      ValLe(n, v);
    }
    if off' + n' <= off || off + n <= off' {
      assert r[off'..off' + n'] == s[off'..off' + n'];
    }
  }

  lemma FieldZeros(n: nat, off: nat, k: nat)
    requires off + k <= n
    ensures Field(Zeros(n), off, k) == 0
  {
    ValZeros(Zeros(n)[off..off + k]);
  }

  // ----- bits -----

  function Pow2(n: nat): nat { if n == 0 then 1 else 2 * Pow2(n - 1) }

  /** `b & (1 << k)` is not zero. */
  predicate TestBit(b: nat, k: nat) {
    if k == 0 then b % 2 == 1 else TestBit(b / 2, k - 1)
  }

  /** `b | (1 << k)`. */
  function SetBit(b: nat, k: nat): nat {
    if k == 0 then b / 2 * 2 + 1 else 2 * SetBit(b / 2, k - 1) + b % 2
  }

  /** `b & ~(1 << k)`. */
  function ClearBit(b: nat, k: nat): nat {
    if k == 0 then b / 2 * 2 else 2 * ClearBit(b / 2, k - 1) + b % 2
  }

  lemma HalfOf(b: nat, k: nat)
    ensures SetBit(b, k) / 2 == if k == 0 then b / 2 else SetBit(b / 2, k - 1)
    ensures SetBit(b, k) % 2 == if k == 0 then 1 else b % 2
    ensures ClearBit(b, k) / 2 == if k == 0 then b / 2 else ClearBit(b / 2, k - 1)
    ensures ClearBit(b, k) % 2 == if k == 0 then 0 else b % 2
  {
  }

  lemma {:induction false} OneBitChanges(b: nat, k: nat, j: nat)
    ensures TestBit(SetBit(b, k), j) == (j == k || TestBit(b, j))
    ensures TestBit(ClearBit(b, k), j) == (j != k && TestBit(b, j))
  {
    hide SetBit, ClearBit;
    HalfOf(b, k);
    if k > 0 && j > 0 {
      OneBitChanges(b / 2, k - 1, j - 1);
    }
  }

  lemma {:induction false} BitFits(b: nat, k: nat, n: nat)
    requires b < Pow2(n) && k < n
    ensures SetBit(b, k) < Pow2(n) && ClearBit(b, k) < Pow2(n)
  {
    if k > 0 {
      BitFits(b / 2, k - 1, n - 1);
    }
  }

  /** Bit `i` of a bitmap: byte `i / 8`, mask `1 << (i % 8)`. */
  predicate BitAt(s: seq<byte>, i: nat)
    requires i < 8 * |s|
  {
    TestBit(s[i / 8], i % 8)
  }

  function WithBit(s: seq<byte>, i: nat): (r: seq<byte>)
    requires i < 8 * |s|
    ensures |r| == |s|
  {
    BitFits(s[i / 8], i % 8, 8);
    s[i / 8 := SetBit(s[i / 8], i % 8)]
  }

  function WithoutBit(s: seq<byte>, i: nat): (r: seq<byte>)
    requires i < 8 * |s|
    ensures |r| == |s|
  {
    BitFits(s[i / 8], i % 8, 8);
    s[i / 8 := ClearBit(s[i / 8], i % 8)]
  }

  lemma BitUpdates(s: seq<byte>, i: nat, j: nat)
    requires i < 8 * |s| && j < 8 * |s|
    ensures BitAt(WithBit(s, i), j) == (j == i || BitAt(s, j))
    ensures BitAt(WithoutBit(s, i), j) == (j != i && BitAt(s, j))
  {
    OneBitChanges(s[i / 8], i % 8, j % 8);
  }

  lemma {:induction false} ClearUndoesSet(b: nat, k: nat)
    requires !TestBit(b, k)
    ensures ClearBit(SetBit(b, k), k) == b
  {
    if k > 0 {
      HalfOf(b, k);
      ClearUndoesSet(b / 2, k - 1);
    }
  }

  /** Clearing a bit just set gives the bitmap back. */
  lemma WithoutUndoesWith(s: seq<byte>, i: nat)
    requires i < 8 * |s| && !BitAt(s, i)
    ensures WithoutBit(WithBit(s, i), i) == s
  {
    ClearUndoesSet(s[i / 8], i % 8);
  }

  /** How many of the first `n` bits are clear. */
  function ClearBits(s: seq<byte>, n: nat): nat
    requires n <= 8 * |s|
  {
    if n == 0 then 0 else ClearBits(s, n - 1) + if BitAt(s, n - 1) then 0 else 1
  }

  lemma {:induction false} ClearBitsChange(s: seq<byte>, i: nat, n: nat)
    requires i < 8 * |s| && n <= 8 * |s|
    ensures !BitAt(s, i) ==> ClearBits(WithBit(s, i), n) == ClearBits(s, n) - if i < n then 1 else 0
    ensures ClearBits(WithoutBit(s, i), n) == ClearBits(s, n) + if BitAt(s, i) && i < n then 1 else 0
  {
    hide BitAt, WithBit, WithoutBit;
    if n > 0 {
      ClearBitsChange(s, i, n - 1);
      BitUpdates(s, i, n - 1);
    }
  }

  lemma {:induction false} NoClearBits(s: seq<byte>, n: nat)
    requires n <= 8 * |s| && forall i :: 0 <= i < n ==> BitAt(s, i)
    ensures ClearBits(s, n) == 0
  {
    if n > 0 {
      NoClearBits(s, n - 1);
    }
  }

  lemma {:induction false} ClearBitCounts(s: seq<byte>, n: nat, i: nat)
    requires i < n <= 8 * |s| && !BitAt(s, i)
    ensures 0 < ClearBits(s, n)
  {
    if i < n - 1 {
      ClearBitCounts(s, n - 1, i);
    }
  }
}
