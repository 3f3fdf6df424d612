/** Ring buffers: `n` bytes from position `start` on, wrapping at the end. */
module Ring {
  import opened Bytes

  /** Position `x`, less than twice the capacity, brought back into the buffer. */
  function Wrap(x: nat, cap: nat): nat { if x < cap then x else x - cap }

  lemma WrapIsMod(x: nat, cap: nat)
    requires x < 2 * cap
    ensures x % cap == Wrap(x, cap)
  {
    if x >= cap {
      assert x % cap == (x - cap) % cap;
    }
  }

  ghost predicate RingOk(buf: seq<byte>, read: nat, write: nat, n: nat) {
    read < |buf| && n <= |buf| && write == Wrap(read + n, |buf|)
  }

  function Slot(buf: seq<byte>, x: nat): byte { if Wrap(x, |buf|) < |buf| then buf[Wrap(x, |buf|)] else 0 }

  /** The bytes held, oldest first. */
  function Held(buf: seq<byte>, read: nat, n: nat): (r: seq<byte>)
    ensures |r| == n && forall i :: 0 <= i < n ==> r[i] == Slot(buf, read + i)
  {
    seq<byte>(n, i requires 0 <= i => Slot(buf, read + i))
  }

  /** One byte written at the end. */
  lemma Pushed(buf: seq<byte>, read: nat, write: nat, n: nat, b: byte)
    requires RingOk(buf, read, write, n) && n < |buf|
    ensures RingOk(buf[write := b], read, Wrap(write + 1, |buf|), n + 1)
    ensures Held(buf[write := b], read, n + 1) == Held(buf, read, n) + [b]
  {
    var c := buf[write := b];
    var h, h' := Held(buf, read, n), Held(c, read, n + 1);
    forall i | 0 <= i < n ensures h'[i] == h[i] {
    }
    assert h'[n] == Slot(c, read + n) == b;
  }

  /** One byte taken from the front. */
  lemma Popped(buf: seq<byte>, read: nat, write: nat, n: nat)
    requires RingOk(buf, read, write, n) && 0 < n
    ensures RingOk(buf, Wrap(read + 1, |buf|), write, n - 1)
    ensures Held(buf, read, n) == [buf[read]] + Held(buf, Wrap(read + 1, |buf|), n - 1)
  {
    var h, h' := Held(buf, read, n), Held(buf, Wrap(read + 1, |buf|), n - 1);
    forall i | 0 <= i < n - 1 ensures h'[i] == h[i + 1] {
    }
  }

  lemma RingBounds(buf: seq<byte>, read: nat, write: nat, n: nat)
    requires RingOk(buf, read, write, n)
    ensures write < |buf| && read < |buf| && n <= |buf|
  {
  }
}
