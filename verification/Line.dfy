/** gfx_draw_line of the graphics library (user/lib/libgfx.c): Bresenham's algorithm. */
module Line {
  import opened Arith

  /** A third of the largest int: lines no longer than this in either direction do not overflow. */
  const MAX_SPAN := 0x2AAA_AAAA

  predicate IsInt(x: int) { -0x8000_0000 <= x < 0x8000_0000 }

  datatype Point = Point(x: int, y: int)

  function Abs(x: int): nat { if x < 0 then -x else x }

  function Max(a: nat, b: nat): nat { if a < b then b else a }

  function Sign(from: int, to: int): int { if from < to then 1 else -1 }

  /** The point reached after `a` steps in x and `b` steps in y. */
  function Stepped(p: Point, q: Point, a: nat, b: nat): Point {
    Point(p.x + Sign(p.x, q.x) * a, p.y + Sign(p.y, q.y) * b)
  }

  /** How far the point is off the ideal line, in units of 1 / max(dx, dy) pixels along the minor axis. */
  function Offset(dx: nat, dy: nat, a: nat, b: nat): int { dx * b - dy * a }

  /** Within half a pixel of the ideal line along the minor axis. */
  predicate HalfPixel(dx: nat, dy: nat, a: nat, b: nat) {
    0 - Max(dx, dy) <= 2 * Offset(dx, dy, a, b) <= Max(dx, dy)
  }

  /** The state of the loop after `k` steps: the major axis has advanced by `k`. */
  predicate OnLine(dx: nat, dy: nat, k: nat, a: nat, b: nat) {
    k <= Max(dx, dy) && a <= dx && b <= dy && (if dx >= dy then a == k else b == k) && HalfPixel(dx, dy, a, b)
  }

  /** Steps per the two tests of the loop. */
  function NextX(dx: nat, dy: nat, err: int, a: nat): nat { if 2 * err > 0 - dy then a + 1 else a }

  function NextY(dx: nat, dy: nat, err: int, b: nat): nat { if 2 * err < dx then b + 1 else b }

  lemma OffsetSteps(dx: nat, dy: nat, a: nat, b: nat)
    ensures Offset(dx, dy, a + 1, b) == Offset(dx, dy, a, b) - dy
    ensures Offset(dx, dy, a, b + 1) == Offset(dx, dy, a, b) + dx
    ensures Offset(dx, dy, a + 1, b + 1) == Offset(dx, dy, a, b) + dx - dy
  {
    assert dy * (a + 1) == dy * a + dy && dx * (b + 1) == dx * b + dx;
  }

  /** On a diagonal the offset is a multiple of the span. */
  lemma Diagonal(d: nat, a: nat, b: nat)
    requires 0 < d && HalfPixel(d, d, a, b)
    ensures a == b
  {
    Multiples(a, b, d);
    Multiples(b, a, d);
  }

  /** One turn of the loop advances the major axis by one and stays within half a pixel. */
  lemma StaysOnLine(dx: nat, dy: nat, k: nat, a: nat, b: nat, err: int)
    requires OnLine(dx, dy, k, a, b) && k < Max(dx, dy) && err == Offset(dx, dy, a, b) + dx - dy
    ensures OnLine(dx, dy, k + 1, NextX(dx, dy, err, a), NextY(dx, dy, err, b))
    ensures var a', b' := NextX(dx, dy, err, a), NextY(dx, dy, err, b);
            err - (if a' > a then dy else 0) + (if b' > b then dx else 0) == Offset(dx, dy, a', b') + dx - dy
  {
    OffsetSteps(dx, dy, a, b);
    if dx == dy {
      Diagonal(dx, a, b);
    }
    var a', b' := NextX(dx, dy, err, a), NextY(dx, dy, err, b);
    hide Offset;
    assert HalfPixel(dx, dy, a', b') by { assert dx == dy ==> Offset(dx, dy, a, b) == 0 by { DiagonalOffset(dx, a); } }
    WithinBox(dx, dy, a', b');
  }

  lemma WithinBox(dx: nat, dy: nat, a: nat, b: nat)
    requires HalfPixel(dx, dy, a, b) && 0 < Max(dx, dy) && (if dx >= dy then a <= dx else b <= dy)
    ensures a <= dx && b <= dy
  {
    if dx >= dy {
      MinorBound(dx, dy, a, b);
    } else {
      MinorBound(dy, dx, b, a);
    }
  }

  lemma DiagonalOffset(d: nat, a: nat)
    ensures Offset(d, d, a, a) == 0
  {
  }

  /** When the major axis has arrived, so has the minor one; before, neither test point is the end. */
  lemma Arrives(dx: nat, dy: nat, k: nat, a: nat, b: nat)
    requires OnLine(dx, dy, k, a, b)
    ensures k == Max(dx, dy) <==> a == dx && b == dy
  {
    if dx >= dy && 0 < dx {
      MinorBound(dx, dy, a, b);
    } else if dx < dy {
      MinorBound(dy, dx, b, a);
    }
  }

  lemma MinorBound(major: nat, minor: nat, a: nat, b: nat)
    requires 0 < major && minor <= major && a <= major && 0 - major <= 2 * (major * b - minor * a) <= major
    ensures b <= minor && (a == major ==> b == minor)
  {
    Multiples(minor, b, major);
    Multiples(b, minor, major);
    Multiples(a, major, minor);
  }

  /** All that the loop computes fits an int. */
  lemma NoOverflow(dx: nat, dy: nat, k: nat, a: nat, b: nat, err: int)
    requires OnLine(dx, dy, k, a, b) && err == Offset(dx, dy, a, b) + dx - dy && dx <= MAX_SPAN && dy <= MAX_SPAN
    ensures IsInt(2 * err) && IsInt(err - dy) && IsInt(err + dx)
  {
    hide Offset;
  }

  /** The drawing surface: `stride` words to a row. */
  class Canvas {
    const width: nat
    const height: nat
    const stride: nat
    const pixels: array<nat>

    ghost predicate Valid() { width <= stride && pixels.Length == stride * height }

    constructor (width: nat, height: nat, stride: nat)
      requires width <= stride
      ensures Valid() && this.width == width && this.height == height && fresh(pixels)
    {
      this.width, this.height, this.stride := width, height, stride;
      pixels := new nat[stride * height](_ => 0);
    }

    predicate Inside(p: Point) { 0 <= p.x < width && 0 <= p.y < height }

    /** Where a pixel lies in memory. */
    function Index(p: Point): int { p.y * stride + p.x }

    ghost function Pixel(p: Point): nat
      reads pixels
    {
      if 0 <= Index(p) < pixels.Length then pixels[Index(p)] else 0
    }

    lemma IndexFits(p: Point)
      requires Valid() && Inside(p)
      ensures 0 <= Index(p) < pixels.Length
    {
      Multiples(p.y, height, stride);
    }

    lemma IndexApart(p: Point, q: Point)
      requires Valid() && Inside(p) && Inside(q) && Index(p) == Index(q)
      ensures p == q
    {
      Multiples(p.y, q.y, stride);
      Multiples(q.y, p.y, stride);
    }

    /** gfx_put_pixel: points off the surface are ignored. */
    method PutPixel(p: Point, color: nat)
      requires Valid()
      modifies pixels
      ensures forall q :: Inside(q) ==> Pixel(q) == if q == p then color else old(Pixel(q))
    {
      if p.x < 0 || p.y < 0 || p.x >= width || p.y >= height {
        return;
      }
      IndexFits(p);
      forall q | Inside(q) && q != p ensures Index(q) != Index(p) {
        if Index(q) == Index(p) {
          IndexApart(p, q);
        }
      }
      pixels[p.y * stride + p.x] := color;
    }
  }

  predicate Touches(p: Point, q: Point) { Abs(q.x - p.x) <= 1 && Abs(q.y - p.y) <= 1 }

  /** The point lies within half a pixel of the ideal line from `p` to `q`, after `k` steps of the major axis. */
  ghost predicate Near(p: Point, q: Point, k: nat, r: Point) {
    exists a: nat, b: nat :: OnLine(Abs(q.x - p.x), Abs(q.y - p.y), k, a, b) && r == Stepped(p, q, a, b)
  }

  /** A path from `p` along the line to `q`: its points touch, and none is more than half a pixel off. */
  ghost predicate Follows(p: Point, q: Point, path: seq<Point>) {
    && (path != [] ==> path[0] == p)
    && (forall k :: 0 <= k < |path| - 1 ==> Touches(path[k], path[k + 1]))
    && (forall k :: 0 <= k < |path| ==> Near(p, q, k, path[k]))
  }

  lemma FollowsMore(p: Point, q: Point, path: seq<Point>, a: nat, b: nat)
    requires Follows(p, q, path) && OnLine(Abs(q.x - p.x), Abs(q.y - p.y), |path|, a, b)
    requires if path == [] then a == b == 0 else Touches(path[|path| - 1], Stepped(p, q, a, b))
    ensures Follows(p, q, path + [Stepped(p, q, a, b)])
  {
    hide OnLine, Touches;
    var r, n := Stepped(p, q, a, b), |path|;
    assert Near(p, q, n, r);
    hide Near;
    var t := path + [r];
    forall k | 0 <= k < |t| - 1 ensures Touches(t[k], t[k + 1]) {
      assert k < n - 1 ==> t[k] == path[k] && t[k + 1] == path[k + 1];
    }
  }

  /** The loop's test for the end point. */
  lemma AtEnd(p: Point, q: Point, k: nat, a: nat, b: nat)
    requires OnLine(Abs(q.x - p.x), Abs(q.y - p.y), k, a, b)
    ensures Stepped(p, q, a, b) == q <==> k == Max(Abs(q.x - p.x), Abs(q.y - p.y))
  {
    Arrives(Abs(q.x - p.x), Abs(q.y - p.y), k, a, b);
    hide HalfPixel;
  }

  /** One turn of the loop moves to a touching point. */
  lemma Moves(p: Point, q: Point, a: nat, b: nat, a': nat, b': nat)
    requires (a' == a || a' == a + 1) && (b' == b || b' == b + 1)
    ensures Touches(Stepped(p, q, a, b), Stepped(p, q, a', b'))
    ensures Stepped(p, q, a', b').x == Stepped(p, q, a, b).x + (if a' > a then Sign(p.x, q.x) else 0)
    ensures Stepped(p, q, a', b').y == Stepped(p, q, a, b).y + (if b' > b then Sign(p.y, q.y) else 0)
  {
  }

  /**
   * gfx_draw_line. The loop ends after max(dx, dy) steps, exactly at the endpoint; the
   * points it draws touch, and none is more than half a pixel off the line.
   */
  method DrawLine(c: Canvas, p: Point, q: Point, color: nat) returns (ghost path: seq<Point>)
    requires c.Valid() && Abs(q.x - p.x) <= MAX_SPAN && Abs(q.y - p.y) <= MAX_SPAN
    modifies c.pixels
    ensures |path| == Max(Abs(q.x - p.x), Abs(q.y - p.y)) + 1 && path[|path| - 1] == q && Follows(p, q, path)
    ensures forall r :: c.Inside(r) ==> c.Pixel(r) == if r in path then color else old(c.Pixel(r))
  {
    hide OnLine, Offset, Stepped, Near, Follows, Touches, Canvas.Pixel, Canvas.Inside;
    var dx, dy := q.x - p.x, q.y - p.y;
    if dx < 0 {
      dx := -dx;
    }
    if dy < 0 {
      dy := -dy;
    }
    var sx := if p.x < q.x then 1 else -1;
    var sy := if p.y < q.y then 1 else -1;
    var err := dx - dy;
    var x, y := p.x, p.y;
    ghost var a: nat, b: nat := 0, 0;
    path := [];
    Starts(p, q);
    while true
      invariant OnLine(dx, dy, |path|, a, b) && err == Offset(dx, dy, a, b) + dx - dy
        && Point(x, y) == Stepped(p, q, a, b)
      invariant Follows(p, q, path) && if path == [] then a == b == 0 else Touches(path[|path| - 1], Point(x, y))
      invariant |path| <= Max(dx, dy)
      invariant forall r :: c.Inside(r) ==> c.Pixel(r) == if r in path then color else old(c.Pixel(r))
      decreases Max(dx, dy) - |path|
    {
      c.PutPixel(Point(x, y), color);
      FollowsMore(p, q, path, a, b);
      AtEnd(p, q, |path|, a, b);
      ghost var k := |path|;
      path := path + [Point(x, y)];
      if x == q.x && y == q.y {
        break;
      }
      StaysOnLine(dx, dy, k, a, b, err);
      NoOverflow(dx, dy, k, a, b, err);
      Moves(p, q, a, b, NextX(dx, dy, err, a), NextY(dx, dy, err, b));
      a, b := NextX(dx, dy, err, a), NextY(dx, dy, err, b);
      var e2 := 2 * err;
      if e2 > -dy {
        err := err - dy;
        x := x + sx;
      }
      if e2 < dx {
        err := err + dx;
        y := y + sy;
      }
    }
  }

  lemma Starts(p: Point, q: Point)
    ensures OnLine(Abs(q.x - p.x), Abs(q.y - p.y), 0, 0, 0) && Offset(Abs(q.x - p.x), Abs(q.y - p.y), 0, 0) == 0
    ensures Stepped(p, q, 0, 0) == p && Follows(p, q, [])
  {
  }
}
