/** Midpoint circle and Bresenham line of `Adafruit_GFX`, drawn into the frame buffer. */
module Raster {
  import opened Framebuffer

  type Pixel = (int, int)

  function Abs(x: int): int {
    if x < 0 then -x else x
  }

  // ---------------------------------------------------------------------- circle

  /** The offsets (x, y) the circle loop plots, from state (x, y, f) on. */
  function Octant(x: int, y: int, f: int): seq<Pixel>
    decreases y - x
  {
    if x >= y then []
    else
      var y' := if f >= 0 then y - 1 else y;
      var f' := if f >= 0 then f - 2 * y' else f;
      [(x + 1, y')] + Octant(x + 1, y', f' + 2 * x + 3)
  }

  /** Signed distance of (x, y) from the circle, in squared units. */
  function Error(x: int, y: int, r: int): int {
    x * x + y * y - r * r
  }

  /** What holds at the loop head: f is the midpoint test value, with bounds that keep the error small. */
  predicate CircleState(x: int, y: int, f: int, r: int) {
    && 0 <= x
    && f == Error(x + 1, y, r) - y
    && -2 * y <= f
    && (x < y ==> f <= 2 * x)
  }

  lemma CircleStart(r: int)
    requires r >= 0
    ensures CircleState(0, r, 1 - r, r)
  {
  }

  lemma CircleStep(x: int, y: int, f: int, r: int)
    requires CircleState(x, y, f, r) && x < y
    ensures var y' := if f >= 0 then y - 1 else y;
            var f' := (if f >= 0 then f - 2 * y' else f) + 2 * x + 3;
            && CircleState(x + 1, y', f', r)
            && -y' <= Error(x + 1, y', r) <= y'
  {
    var n := x + 1;
    assert (n + 1) * (n + 1) == n * n + 2 * n + 1;
    assert (y - 1) * (y - 1) == y * y - 2 * y + 1;
  }

  /**
   * The octant has one point per column from x + 1 until the diagonal is reached; every point is within
   * its `y` of the circle, and rows fall by at most one per column.
   */
  lemma {:induction false} OctantAccurate(x: int, y: int, f: int, r: int, i: nat)
    requires CircleState(x, y, f, r) && i < |Octant(x, y, f)|
    ensures var o := Octant(x, y, f);
            && o[i].0 == x + 1 + i && 0 <= o[i].1 <= y
            && -o[i].1 <= Error(o[i].0, o[i].1, r) <= o[i].1
            && 0 <= (if i == 0 then y else o[i - 1].1) - o[i].1 <= 1
            && (o[i].0 >= o[i].1 <==> i == |o| - 1)
    decreases y - x
  {
    hide Error, CircleState;
    CircleStep(x, y, f, r);
    NonNegativeRow(x, y, f, r);
    var y' := if f >= 0 then y - 1 else y;
    var f' := (if f >= 0 then f - 2 * y' else f) + 2 * x + 3;
    var t := Octant(x + 1, y', f');
    assert Octant(x, y, f) == [(x + 1, y')] + t;
    if i > 0 {
      OctantAccurate(x + 1, y', f', r, i - 1);
    } else {
      assert x + 1 >= y' <==> t == [];
    }
  }

  lemma NonNegativeRow(x: int, y: int, f: int, r: int)
    requires CircleState(x, y, f, r) && x < y
    ensures 0 <= x < y
  {
  }

  /** The eight reflections of an offset around the centre. */
  function Reflections(x0: int, y0: int, p: Pixel): seq<Pixel> {
    var (x, y) := p;
    [(x0 + x, y0 + y), (x0 - x, y0 + y), (x0 + x, y0 - y), (x0 - x, y0 - y),
     (x0 + y, y0 + x), (x0 - y, y0 + x), (x0 + y, y0 - x), (x0 - y, y0 - x)]
  }

  function Reflected(x0: int, y0: int, o: seq<Pixel>): seq<Pixel> {
    if o == [] then [] else Reflected(x0, y0, o[..|o| - 1]) + Reflections(x0, y0, o[|o| - 1])
  }

  function Poles(x0: int, y0: int, r: int): seq<Pixel> {
    [(x0, y0 + r), (x0, y0 - r), (x0 + r, y0), (x0 - r, y0)]
  }

  function CirclePixels(x0: int, y0: int, r: int): seq<Pixel> {
    Poles(x0, y0, r) + Reflected(x0, y0, Octant(0, r, 1 - r))
  }

  lemma {:induction false} ReflectedMembers(x0: int, y0: int, o: seq<Pixel>, p: Pixel)
    ensures p in Reflected(x0, y0, o) <==> exists i :: 0 <= i < |o| && p in Reflections(x0, y0, o[i])
  {
    hide Reflections;
    if o != [] {
      var n := |o| - 1;
      ReflectedMembers(x0, y0, o[..n], p);
      assert forall i :: 0 <= i < n ==> o[..n][i] == o[i];
    }
  }

  /** Every plotted pixel lies on the circle up to its larger offset; the poles lie on it exactly. */
  lemma CircleAccurate(x0: int, y0: int, r: int, p: Pixel)
    requires r >= 0 && p in CirclePixels(x0, y0, r)
    ensures var dx, dy := Abs(p.0 - x0), Abs(p.1 - y0);
            Abs(Error(dx, dy, r)) <= if dx < dy then dy else dx
  {
    hide Octant, Reflected, Reflections, Poles, Error;
    CircleStart(r);
    var o := Octant(0, r, 1 - r);
    if p in Poles(x0, y0, r) {
      PolesAccurate(x0, y0, r, p);
    } else {
      ReflectedMembers(x0, y0, o, p);
      var i :| 0 <= i < |o| && p in Reflections(x0, y0, o[i]);
      OctantAccurate(0, r, 1 - r, r, i);
      OffsetOfReflection(x0, y0, o[i], p, r);
    }
  }

  lemma PolesAccurate(x0: int, y0: int, r: int, p: Pixel)
    requires r >= 0 && p in Poles(x0, y0, r)
    ensures Error(Abs(p.0 - x0), Abs(p.1 - y0), r) == 0
  {
  }

  lemma OffsetOfReflection(x0: int, y0: int, q: Pixel, p: Pixel, r: int)
    requires q.0 >= 0 && q.1 >= 0 && p in Reflections(x0, y0, q)
    ensures var dx, dy := Abs(p.0 - x0), Abs(p.1 - y0);
            && Error(dx, dy, r) == Error(q.0, q.1, r)
            && ((dx, dy) == q || (dy, dx) == q)
  {
    var dx, dy := Abs(p.0 - x0), Abs(p.1 - y0);
    assert (dx, dy) == q || (dx == q.1 && dy == q.0);
  }

  /** The plotted set is symmetric under all eight reflections. */
  lemma CircleSymmetric(x0: int, y0: int, r: int, dx: int, dy: int)
    requires (x0 + dx, y0 + dy) in CirclePixels(x0, y0, r)
    ensures (x0 - dx, y0 + dy) in CirclePixels(x0, y0, r)
    ensures (x0 + dy, y0 + dx) in CirclePixels(x0, y0, r)
  {
    hide Octant, Reflected, Reflections;
    var o := Octant(0, r, 1 - r);
    var p := (x0 + dx, y0 + dy);
    ReflectedMembers(x0, y0, o, (x0 - dx, y0 + dy));
    ReflectedMembers(x0, y0, o, (x0 + dy, y0 + dx));
    if p !in Poles(x0, y0, r) {
      ReflectedMembers(x0, y0, o, p);
      var i :| 0 <= i < |o| && p in Reflections(x0, y0, o[i]);
      ReflectionsClosed(x0, y0, o[i], dx, dy);
    }
  }

  lemma ReflectionsClosed(x0: int, y0: int, q: Pixel, dx: int, dy: int)
    requires (x0 + dx, y0 + dy) in Reflections(x0, y0, q)
    ensures (x0 - dx, y0 + dy) in Reflections(x0, y0, q) && (x0 + dy, y0 + dx) in Reflections(x0, y0, q)
  {
    assert (Abs(dx) == Abs(q.0) && Abs(dy) == Abs(q.1)) || (Abs(dx) == Abs(q.1) && Abs(dy) == Abs(q.0));
  }

  /** What drawCircleHelper plots for an offset: two of the reflections per selected corner. */
  function Corners(x0: int, y0: int, p: Pixel, corner: bv8): seq<Pixel> {
    var (x, y) := p;
    (if corner & 4 != 0 then [(x0 + x, y0 + y), (x0 + y, y0 + x)] else []) +
    (if corner & 2 != 0 then [(x0 + x, y0 - y), (x0 + y, y0 - x)] else []) +
    (if corner & 8 != 0 then [(x0 - y, y0 + x), (x0 - x, y0 + y)] else []) +
    (if corner & 1 != 0 then [(x0 - y, y0 - x), (x0 - x, y0 - y)] else [])
  }

  function Cornered(x0: int, y0: int, o: seq<Pixel>, corner: bv8): seq<Pixel> {
    if o == [] then [] else Cornered(x0, y0, o[..|o| - 1], corner) + Corners(x0, y0, o[|o| - 1], corner)
  }

  /** The four corners together are the circle without its poles; each corner is the part in its quadrant. */
  lemma CornersOfReflections(x0: int, y0: int, q: Pixel, corner: bv8, p: Pixel)
    requires q.0 > 0 && q.1 >= 0
    ensures p in Corners(x0, y0, q, 15) <==> p in Reflections(x0, y0, q)
    ensures p in Corners(x0, y0, q, corner) ==> p in Reflections(x0, y0, q)
    ensures p in Corners(x0, y0, q, 4) ==> p.0 >= x0 && p.1 >= y0
    ensures p in Corners(x0, y0, q, 2) ==> p.0 >= x0 && p.1 <= y0
    ensures p in Corners(x0, y0, q, 8) ==> p.0 <= x0 && p.1 >= y0
    ensures p in Corners(x0, y0, q, 1) ==> p.0 <= x0 && p.1 <= y0
  {
    CornerBits();
  }

  lemma CornerBits()
    ensures 15 as bv8 & 4 != 0 && 15 as bv8 & 2 != 0 && 15 as bv8 & 8 != 0 && 15 as bv8 & 1 != 0
    ensures 4 as bv8 & 2 == 0 && 4 as bv8 & 8 == 0 && 4 as bv8 & 1 == 0
    ensures 2 as bv8 & 4 == 0 && 2 as bv8 & 8 == 0 && 2 as bv8 & 1 == 0
    ensures 8 as bv8 & 4 == 0 && 8 as bv8 & 2 == 0 && 8 as bv8 & 1 == 0
    ensures 1 as bv8 & 4 == 0 && 1 as bv8 & 2 == 0 && 1 as bv8 & 8 == 0
  {
  }

  // ------------------------------------------------------------ completeness

  /** The rows of the octant leave no gap: every row between the last point's and `y` occurs, or is `y` itself. */
  lemma {:induction false} OctantRows(x: int, y: int, f: int, r: int, v: int, i: nat) returns (j: nat)
    requires CircleState(x, y, f, r) && i < |Octant(x, y, f)| && Octant(x, y, f)[i].1 <= v < y
    ensures j <= i && Octant(x, y, f)[j].1 == v
  {
    hide CircleState, Octant;
    OctantAccurate(x, y, f, r, i);
    if Octant(x, y, f)[i].1 == v {
      j := i;
    } else {
      assert i > 0;
      j := OctantRows(x, y, f, r, v, i - 1);
    }
  }

  /** Every distance from 1 to r occurs as a coordinate of an offset of the octant. */
  lemma OctantCovers(r: int, d: int) returns (i: nat)
    requires 1 <= d <= r
    ensures var o := Octant(0, r, 1 - r); i < |o| && (o[i].0 == d || o[i].1 == d)
  {
    var o := Octant(0, r, 1 - r);
    CircleStart(r);
    var last := |o| - 1;
    OctantAccurate(0, r, 1 - r, r, last);
    if d <= last + 1 {
      i := d - 1;
      OctantAccurate(0, r, 1 - r, r, i);
    } else if d < r {
      i := OctantRows(0, r, 1 - r, r, d, last);
    } else {
      i := 0;
      OctantAccurate(0, r, 1 - r, r, 0);
      assert o[0].1 == r;
    }
  }

  /** All eight reflections of every offset of the octant are drawn, and the four poles. */
  lemma CircleHasOctants(x0: int, y0: int, r: int, i: nat, p: Pixel)
    requires r >= 0
    ensures p in Poles(x0, y0, r) ==> p in CirclePixels(x0, y0, r)
    ensures i < |Octant(0, r, 1 - r)| && p in Reflections(x0, y0, Octant(0, r, 1 - r)[i]) ==> p in CirclePixels(x0, y0, r)
  {
    hide Octant, Reflections, Reflected, Poles;
    ReflectedMembers(x0, y0, Octant(0, r, 1 - r), p);
  }

  /** The circle has no gap: a pixel is drawn in every column and in every row at most r from the centre. */
  lemma CircleComplete(x0: int, y0: int, r: int, d: int) returns (e: int)
    requires Abs(d) <= r
    ensures (x0 + d, y0 + e) in CirclePixels(x0, y0, r) && (x0 + e, y0 + d) in CirclePixels(x0, y0, r)
  {
    hide CirclePixels, Octant, Reflections;
    if d == 0 {
      e := r;
      PolesIncluded(x0, y0, r);
      CircleHasOctants(x0, y0, r, 0, (x0, y0 + r));
    } else {
      var i := OctantCovers(r, Abs(d));
      var q := Octant(0, r, 1 - r)[i];
      e := if q.0 == Abs(d) then q.1 else q.0;
      ReflectionsInclude(x0, y0, q, d, e);
      CircleHasOctants(x0, y0, r, i, (x0 + d, y0 + e));
    }
    CircleSymmetric(x0, y0, r, d, e);
  }

  lemma PolesIncluded(x0: int, y0: int, r: int)
    ensures (x0, y0 + r) in Poles(x0, y0, r)
  {
    assert Poles(x0, y0, r)[0] == (x0, y0 + r);
  }

  lemma ReflectionsInclude(x0: int, y0: int, q: Pixel, dx: int, dy: int)
    requires (Abs(dx) == q.0 && dy == q.1) || (Abs(dx) == q.1 && dy == q.0)
    ensures (x0 + dx, y0 + dy) in Reflections(x0, y0, q)
  {
    var s := Reflections(x0, y0, q);
    assert s[0] in s && s[1] in s && s[4] in s && s[5] in s;
  }

  lemma {:induction false} CorneredMembers(x0: int, y0: int, o: seq<Pixel>, corner: bv8, p: Pixel)
    ensures p in Cornered(x0, y0, o, corner) <==> exists i :: 0 <= i < |o| && p in Corners(x0, y0, o[i], corner)
  {
    hide Corners;
    if o != [] {
      var n := |o| - 1;
      CorneredMembers(x0, y0, o[..n], corner, p);
      assert forall i :: 0 <= i < n ==> o[..n][i] == o[i];
    }
  }

  /** Bit 4 draws below and right of the centre, 2 above and right, 8 below and left, 1 above and left. */
  predicate Selected(corner: bv8, right: bool, below: bool) {
    if right then (if below then corner & 4 != 0 else corner & 2 != 0)
    else if below then corner & 8 != 0 else corner & 1 != 0
  }

  lemma CornerHas(x0: int, y0: int, q: Pixel, corner: bv8, right: bool, below: bool)
    requires Selected(corner, right, below)
    ensures var sx, sy := if right then 1 else -1, if below then 1 else -1;
            && (x0 + sx * q.0, y0 + sy * q.1) in Corners(x0, y0, q, corner)
            && (x0 + sx * q.1, y0 + sy * q.0) in Corners(x0, y0, q, corner)
  {
    var sx, sy := if right then 1 else -1, if below then 1 else -1;
    var pair := [(x0 + sx * q.0, y0 + sy * q.1), (x0 + sx * q.1, y0 + sy * q.0)];
    assert pair[0] in pair && pair[1] in pair;
  }

  /** A selected corner has no gap either: its quarter has a pixel in every column and row from 1 to r. */
  lemma CornerComplete(x0: int, y0: int, r: int, corner: bv8, right: bool, below: bool, d: int) returns (e: int)
    requires 1 <= d <= r && Selected(corner, right, below)
    ensures var sx, sy := if right then 1 else -1, if below then 1 else -1;
            var drawn := Cornered(x0, y0, Octant(0, r, 1 - r), corner);
            e >= 0 && (x0 + sx * d, y0 + sy * e) in drawn && (x0 + sx * e, y0 + sy * d) in drawn
  {
    hide Octant, Corners, Cornered, Selected;
    var o := Octant(0, r, 1 - r);
    var sx, sy := if right then 1 else -1, if below then 1 else -1;
    var i := OctantCovers(r, d);
    CircleStart(r);
    OctantAccurate(0, r, 1 - r, r, i);
    e := if o[i].0 == d then o[i].1 else o[i].0;
    CornerHas(x0, y0, o[i], corner, right, below);
    CorneredMembers(x0, y0, o, corner, (x0 + sx * d, y0 + sy * e));
    CorneredMembers(x0, y0, o, corner, (x0 + sx * e, y0 + sy * d));
  }

  // ------------------------------------------------------------------------ line

  /** Rows climbed after `i` columns of a line of width dx and height dy: i*dy/dx, rounded to nearest. */
  function Climb(i: int, dx: int, dy: int): int {
    if dx == 0 then 0 else (i * dy + dx - 1 - dx / 2) / dx
  }

  predicate Steep(x0: int, y0: int, x1: int, y1: int) {
    Abs(y1 - y0) > Abs(x1 - x0)
  }

  function LineLength(x0: int, y0: int, x1: int, y1: int): int {
    if Steep(x0, y0, x1, y1) then Abs(y1 - y0) + 1 else Abs(x1 - x0) + 1
  }

  /** Pixel `i` of the line between points with x0 <= x1 and slope at most one. */
  function FlatPixel(x0: int, y0: int, x1: int, y1: int, i: int): Pixel {
    (x0 + i, y0 + (if y0 < y1 then 1 else -1) * Climb(i, x1 - x0, Abs(y1 - y0)))
  }

  function Swap(p: Pixel): Pixel {
    (p.1, p.0)
  }

  /** The swaps at the start of drawLine: transpose a steep line, then order by the major coordinate. */
  function Canonical(x0: int, y0: int, x1: int, y1: int): (int, int, int, int) {
    var (ax, ay, bx, ey) := if Steep(x0, y0, x1, y1) then (y0, x0, y1, x1) else (x0, y0, x1, y1);
    if ax > bx then (bx, ey, ax, ay) else (ax, ay, bx, ey)
  }

  /** Pixel `i` of the line, in drawing order. */
  function LinePixel(x0: int, y0: int, x1: int, y1: int, i: int): Pixel {
    var (ax, ay, bx, ey) := Canonical(x0, y0, x1, y1);
    var p := FlatPixel(ax, ay, bx, ey, i);
    if Steep(x0, y0, x1, y1) then Swap(p) else p
  }

  function LinePixels(x0: int, y0: int, x1: int, y1: int, n: nat): (ps: seq<Pixel>)
    ensures |ps| == n
  {
    if n == 0 then [] else LinePixels(x0, y0, x1, y1, n - 1) + [LinePixel(x0, y0, x1, y1, n - 1)]
  }

  /** The error term pins the climb down. */
  lemma ClimbUnique(i: int, dx: int, dy: int, k: int)
    requires dx > 0 && 0 <= dx / 2 - i * dy + k * dx < dx
    ensures k == Climb(i, dx, dy)
  {
    var a := i * dy + dx - 1 - dx / 2;
    assert 0 <= a - k * dx < dx;
    QuotientUnique(a, dx, k);
  }

  lemma QuotientUnique(a: int, d: int, k: int)
    requires d > 0 && 0 <= a - k * d < d
    ensures a / d == k
  {
    var q := a / d;
    assert 0 <= a - q * d < d;
    if q < k {
      RowStep(q, k, d);
    } else if q > k {
      RowStep(k, q, d);
    }
  }

  /** Climbing is nearest rounding: off the true line by at most half a row. */
  lemma ClimbNearest(i: int, dx: int, dy: int)
    requires 0 <= dy <= dx && 0 <= i <= dx
    ensures var k := Climb(i, dx, dy);
            && -dx <= 2 * (k * dx - i * dy) <= dx
            && (i == 0 ==> k == 0) && (i == dx ==> k == dy)
  {
    if dx > 0 {
      NearestQuotient(i * dy, dx);
      if i == 0 {
        ClimbUnique(0, dx, dy, 0);
      }
      if i == dx {
        ClimbUnique(dx, dx, dy, dy);
      }
    }
  }

  /** Rounding up from just below the half. */
  lemma NearestQuotient(rise: int, d: int)
    requires d > 0
    ensures var k := (rise + d - 1 - d / 2) / d; -d <= 2 * (k * d - rise) <= d
  {
    DivBounds(rise + d - 1 - d / 2, d);
  }

  lemma DivBounds(a: int, d: int)
    requires d > 0
    ensures 0 <= a - a / d * d < d
  {
  }

  lemma FlatNearest(x0: int, y0: int, x1: int, y1: int, i: int)
    requires x0 <= x1 && Abs(y1 - y0) <= x1 - x0 && 0 <= i <= x1 - x0
    ensures var (px, py) := FlatPixel(x0, y0, x1, y1, i);
            && px == x0 + i
            && 2 * Abs((py - y0) * (x1 - x0) - (px - x0) * (y1 - y0)) <= x1 - x0
            && (i == 0 ==> py == y0) && (i == x1 - x0 ==> py == y1)
  {
    hide Climb;
    var dx, dy := x1 - x0, Abs(y1 - y0);
    var k := Climb(i, dx, dy);
    ClimbNearest(i, dx, dy);
    var s := if y0 < y1 then 1 else -1;
    assert y1 - y0 == s * dy;
    if s == 1 {
      assert (s * k) * dx - i * (y1 - y0) == k * dx - i * dy;
    } else {
      assert (s * k) * dx - i * (y1 - y0) == -(k * dx - i * dy);
    }
  }

  /** Twice the area between a pixel and the ideal line, through either end point. */
  function Cross(x0: int, y0: int, x1: int, y1: int, p: Pixel): int {
    (p.1 - y0) * (x1 - x0) - (p.0 - x0) * (y1 - y0)
  }

  lemma CrossTurns(x0: int, y0: int, x1: int, y1: int, p: Pixel)
    ensures Cross(x1, y1, x0, y0, p) == -Cross(x0, y0, x1, y1, p)
    ensures Cross(y0, x0, y1, x1, Swap(p)) == -Cross(x0, y0, x1, y1, p)
  {
    var a, b, dx, dy := p.0 - x0, p.1 - y0, x1 - x0, y1 - y0;
    assert p.0 - x1 == a - dx && p.1 - y1 == b - dy;
    assert (b - dy) * (-dx) - (a - dx) * (-dy) == -(b * dx - a * dy);
    assert a * dy - b * dx == -(b * dx - a * dy);
  }

  /**
   * Every pixel of the line stays within half a pixel of the ideal line, along the minor axis; the major
   * coordinate advances by one per pixel, so there are max(|dx|, |dy|) + 1 distinct pixels.
   */
  lemma LineNearest(x0: int, y0: int, x1: int, y1: int, i: int)
    requires 0 <= i < LineLength(x0, y0, x1, y1)
    ensures var p := LinePixel(x0, y0, x1, y1, i);
            && 2 * Abs(Cross(x0, y0, x1, y1, p)) <= LineLength(x0, y0, x1, y1) - 1
            && (if Steep(x0, y0, x1, y1) then p.1 == (if y0 > y1 then y1 else y0) + i
                else p.0 == (if x0 > x1 then x1 else x0) + i)
  {
    hide FlatPixel, Cross;
    var p := LinePixel(x0, y0, x1, y1, i);
    CrossTurns(x0, y0, x1, y1, p);
    CrossTurns(y0, x0, y1, x1, Swap(p));
    if Steep(x0, y0, x1, y1) {
      if y0 > y1 { FlatCross(y1, x1, y0, x0, i); } else { FlatCross(y0, x0, y1, x1, i); }
    } else {
      if x0 > x1 { FlatCross(x1, y1, x0, y0, i); } else { FlatCross(x0, y0, x1, y1, i); }
    }
  }

  lemma FlatCross(x0: int, y0: int, x1: int, y1: int, i: int)
    requires x0 <= x1 && Abs(y1 - y0) <= x1 - x0 && 0 <= i <= x1 - x0
    ensures var p := FlatPixel(x0, y0, x1, y1, i);
            && p.0 == x0 + i
            && 2 * Abs(Cross(x0, y0, x1, y1, p)) <= x1 - x0
            && (i == 0 ==> p == (x0, y0)) && (i == x1 - x0 ==> p == (x1, y1))
  {
    hide Climb;
    FlatNearest(x0, y0, x1, y1, i);
  }

  /** Both end points are drawn: they are the first and the last pixel. */
  lemma LineEnds(x0: int, y0: int, x1: int, y1: int)
    ensures var n := LineLength(x0, y0, x1, y1);
            var a, b := LinePixel(x0, y0, x1, y1, 0), LinePixel(x0, y0, x1, y1, n - 1);
            (a == (x0, y0) && b == (x1, y1)) || (a == (x1, y1) && b == (x0, y0))
  {
    hide FlatPixel, Cross;
    var n := LineLength(x0, y0, x1, y1);
    if Steep(x0, y0, x1, y1) {
      if y0 > y1 { FlatCross(y1, x1, y0, x0, 0); FlatCross(y1, x1, y0, x0, n - 1); }
      else { FlatCross(y0, x0, y1, x1, 0); FlatCross(y0, x0, y1, x1, n - 1); }
    } else {
      if x0 > x1 { FlatCross(x1, y1, x0, y0, 0); FlatCross(x1, y1, x0, y0, n - 1); }
      else { FlatCross(x0, y0, x1, y1, 0); FlatCross(x0, y0, x1, y1, n - 1); }
    }
  }

  lemma {:induction false} LinePixelsAt(x0: int, y0: int, x1: int, y1: int, n: nat, i: nat)
    requires i < n
    ensures LinePixels(x0, y0, x1, y1, n)[i] == LinePixel(x0, y0, x1, y1, i)
  {
    hide LinePixel;
    if i < n - 1 {
      LinePixelsAt(x0, y0, x1, y1, n - 1, i);
    }
  }

  /** Every pixel of the drawn line is within half a pixel of the true line and between the end points. */
  lemma LineAccurate(x0: int, y0: int, x1: int, y1: int, p: Pixel)
    requires p in LinePixels(x0, y0, x1, y1, LineLength(x0, y0, x1, y1))
    ensures 2 * Abs(Cross(x0, y0, x1, y1, p)) <= LineLength(x0, y0, x1, y1) - 1
    ensures if Steep(x0, y0, x1, y1) then y0 <= p.1 <= y1 || y1 <= p.1 <= y0 else x0 <= p.0 <= x1 || x1 <= p.0 <= x0
  {
    hide LinePixel, LinePixels, Cross;
    var n := LineLength(x0, y0, x1, y1);
    var i :| 0 <= i < n && p == LinePixels(x0, y0, x1, y1, n)[i];
    LinePixelsAt(x0, y0, x1, y1, n, i);
    LineNearest(x0, y0, x1, y1, i);
  }

  /** The drawn line has max(|dx|, |dy|) + 1 pixels, all different, both end points among them. */
  lemma LineComplete(x0: int, y0: int, x1: int, y1: int)
    ensures var n := LineLength(x0, y0, x1, y1);
            var ps := LinePixels(x0, y0, x1, y1, n);
            && n == (if Abs(x1 - x0) < Abs(y1 - y0) then Abs(y1 - y0) else Abs(x1 - x0)) + 1
            && (forall i, j :: 0 <= i < j < n ==> ps[i] != ps[j])
            && (x0, y0) in ps && (x1, y1) in ps
  {
    hide LinePixel, LinePixels;
    var n := LineLength(x0, y0, x1, y1);
    var ps := LinePixels(x0, y0, x1, y1, n);
    forall i, j | 0 <= i < j < n
      ensures ps[i] != ps[j]
    {
      LinePixelsAt(x0, y0, x1, y1, n, i);
      LinePixelsAt(x0, y0, x1, y1, n, j);
      LineNearest(x0, y0, x1, y1, i);
      LineNearest(x0, y0, x1, y1, j);
    }
    LinePixelsAt(x0, y0, x1, y1, n, 0);
    LinePixelsAt(x0, y0, x1, y1, n, n - 1);
    LineEnds(x0, y0, x1, y1);
    assert ps[0] in ps && ps[n - 1] in ps;
  }

  // --------------------------------------------------------------------- drawing

  class Gfx {
    const display: Display

    constructor (d: Display)
      ensures display == d
    {
      display := d;
    }

    /** Draw `p` after `ps`; the ghost list records all drawPixel calls of an operation. */
    method Plot(ghost before: seq<bv8>, ghost ps: seq<Pixel>, x: int, y: int, on: bool) returns (ghost qs: seq<Pixel>)
      requires display.Valid() && SizeOk(display.Shape(), before) && SizeOk(display.Shape(), display.poledbuff[..])
      requires Painted(display.Shape(), before, display.poledbuff[..], ps, on)
      modifies display.poledbuff
      ensures qs == ps + [(x, y)]
      ensures SizeOk(display.Shape(), display.poledbuff[..])
      ensures Painted(display.Shape(), before, display.poledbuff[..], qs, on)
    {
      hide Painted, SizeOk;
      ghost var middle := display.poledbuff[..];
      display.DrawPixel(x, y, on);
      qs := ps + [(x, y)];
      PaintedAppend(display.Shape(), before, middle, display.poledbuff[..], ps, [(x, y)], on);
    }

    /** The transposition inside the loop of drawLine. */
    method PlotTransposed(ghost before: seq<bv8>, ghost ps: seq<Pixel>, steep: bool, x: int, y: int, on: bool)
      returns (ghost qs: seq<Pixel>)
      requires display.Valid() && SizeOk(display.Shape(), before) && SizeOk(display.Shape(), display.poledbuff[..])
      requires Painted(display.Shape(), before, display.poledbuff[..], ps, on)
      modifies display.poledbuff
      ensures qs == ps + [if steep then (y, x) else (x, y)]
      ensures SizeOk(display.Shape(), display.poledbuff[..])
      ensures Painted(display.Shape(), before, display.poledbuff[..], qs, on)
    {
      hide Painted, SizeOk, BufferSize;
      if steep {
        qs := Plot(before, ps, y, x, on);
      } else {
        qs := Plot(before, ps, x, y, on);
      }
    }

    method DrawLine(x0: int, y0: int, x1: int, y1: int, on: bool)
      requires display.Valid()
      modifies display.poledbuff
      ensures SizeOk(display.Shape(), old(display.poledbuff[..])) && SizeOk(display.Shape(), display.poledbuff[..])
      ensures Painted(display.Shape(), old(display.poledbuff[..]), display.poledbuff[..],
                      LinePixels(x0, y0, x1, y1, LineLength(x0, y0, x1, y1)), on)
    {
      hide Painted, SizeOk, Climb, BufferSize, FlatPixel, LinePixel, BresenhamState;
      ghost var before := display.poledbuff[..];
      SizeFits(display.Shape(), before) by {
        DisplaySize(display);
      }
      PaintedNothing(display.Shape(), before, on);
      var steep := Abs(y1 - y0) > Abs(x1 - x0);
      var ax, ay, bx, ey := x0, y0, x1, y1;
      if steep {
        ax, ay := ay, ax;
        bx, ey := ey, bx;
      }
      if ax > bx {
        ax, bx := bx, ax;
        ay, ey := ey, ay;
      }
      assert (ax, ay, bx, ey) == Canonical(x0, y0, x1, y1);
      assert bx - ax + 1 == LineLength(x0, y0, x1, y1);
      var dx, dy := bx - ax, Abs(ey - ay);
      var err := dx / 2;
      var ystep := if ay < ey then 1 else -1;
      ghost var ps, i, k, startX, startY := [], 0, 0, ax, ay;
      BresenhamStart(startY, dx, dy, ystep);
      while ax <= bx
        invariant 0 <= i <= dx + 1 && ax == startX + i
        invariant BresenhamState(startY, dx, dy, ystep, i, k, ay, err)
        invariant SizeOk(display.Shape(), before) && SizeOk(display.Shape(), display.poledbuff[..])
        invariant ps == LinePixels(x0, y0, x1, y1, i)
        invariant Painted(display.Shape(), before, display.poledbuff[..], ps, on)
        decreases bx - ax
      {
        BresenhamPixel(x0, y0, x1, y1, i, k, ay, err);
        ps := PlotTransposed(before, ps, steep, ax, ay, on);
        BresenhamStep(startY, dx, dy, ystep, i, k, ay, err);
        err := err - dy;
        if err < 0 {
          ay := ay + ystep;
          err := err + dx;
          k := k + 1;
        }
        ax := ax + 1;
        i := i + 1;
      }
    }

    method PlotEight(ghost before: seq<bv8>, ghost ps: seq<Pixel>, x0: int, y0: int, x: int, y: int, on: bool)
      returns (ghost qs: seq<Pixel>)
      requires display.Valid() && SizeOk(display.Shape(), before) && SizeOk(display.Shape(), display.poledbuff[..])
      requires Painted(display.Shape(), before, display.poledbuff[..], ps, on)
      modifies display.poledbuff
      ensures qs == ps + Reflections(x0, y0, (x, y))
      ensures SizeOk(display.Shape(), display.poledbuff[..])
      ensures Painted(display.Shape(), before, display.poledbuff[..], qs, on)
    {
      hide Painted, SizeOk, BufferSize;
      qs := Plot(before, ps, x0 + x, y0 + y, on);
      qs := Plot(before, qs, x0 - x, y0 + y, on);
      qs := Plot(before, qs, x0 + x, y0 - y, on);
      qs := Plot(before, qs, x0 - x, y0 - y, on);
      qs := Plot(before, qs, x0 + y, y0 + x, on);
      qs := Plot(before, qs, x0 - y, y0 + x, on);
      qs := Plot(before, qs, x0 + y, y0 - x, on);
      qs := Plot(before, qs, x0 - y, y0 - x, on);
    }

    /** The two pixels of one corner, if it is selected. */
    method PlotPair(ghost before: seq<bv8>, ghost ps: seq<Pixel>, selected: bool, p: Pixel, q: Pixel, on: bool)
      returns (ghost qs: seq<Pixel>)
      requires display.Valid() && SizeOk(display.Shape(), before) && SizeOk(display.Shape(), display.poledbuff[..])
      requires Painted(display.Shape(), before, display.poledbuff[..], ps, on)
      modifies display.poledbuff
      ensures qs == ps + if selected then [p, q] else []
      ensures SizeOk(display.Shape(), display.poledbuff[..])
      ensures Painted(display.Shape(), before, display.poledbuff[..], qs, on)
    {
      hide Painted, SizeOk, BufferSize;
      qs := ps;
      if selected {
        qs := Plot(before, qs, p.0, p.1, on);
        qs := Plot(before, qs, q.0, q.1, on);
      }
    }

    method PlotCorners(ghost before: seq<bv8>, ghost ps: seq<Pixel>, x0: int, y0: int, x: int, y: int, corner: bv8, on: bool)
      returns (ghost qs: seq<Pixel>)
      requires display.Valid() && SizeOk(display.Shape(), before) && SizeOk(display.Shape(), display.poledbuff[..])
      requires Painted(display.Shape(), before, display.poledbuff[..], ps, on)
      modifies display.poledbuff
      ensures qs == ps + Corners(x0, y0, (x, y), corner)
      ensures SizeOk(display.Shape(), display.poledbuff[..])
      ensures Painted(display.Shape(), before, display.poledbuff[..], qs, on)
    {
      hide Painted, SizeOk, BufferSize;
      qs := PlotPair(before, ps, corner & 4 != 0, (x0 + x, y0 + y), (x0 + y, y0 + x), on);
      qs := PlotPair(before, qs, corner & 2 != 0, (x0 + x, y0 - y), (x0 + y, y0 - x), on);
      qs := PlotPair(before, qs, corner & 8 != 0, (x0 - y, y0 + x), (x0 - x, y0 + y), on);
      qs := PlotPair(before, qs, corner & 1 != 0, (x0 - y, y0 - x), (x0 - x, y0 - y), on);
    }

    method DrawCircleHelper(x0: int, y0: int, r: int, corner: bv8, on: bool)
      requires display.Valid()
      modifies display.poledbuff
      ensures SizeOk(display.Shape(), old(display.poledbuff[..])) && SizeOk(display.Shape(), display.poledbuff[..])
      ensures Painted(display.Shape(), old(display.poledbuff[..]), display.poledbuff[..],
                      Cornered(x0, y0, Octant(0, r, 1 - r), corner), on)
    {
      hide Painted, SizeOk, BufferSize, Corners, Cornered;
      ghost var before := display.poledbuff[..];
      SizeFits(display.Shape(), before) by {
        DisplaySize(display);
      }
      PaintedNothing(display.Shape(), before, on);
      var f, ddFx, ddFy, x, y := 1 - r, 1, -2 * r, 0, r;
      ghost var ps, done := [], [];
      NothingCornered(x0, y0, corner);
      while x < y
        invariant ddFx == 2 * x + 1 && ddFy == -2 * y
        invariant Octant(0, r, 1 - r) == done + Octant(x, y, f)
        invariant ps == Cornered(x0, y0, done, corner)
        invariant SizeOk(display.Shape(), before) && SizeOk(display.Shape(), display.poledbuff[..])
        invariant Painted(display.Shape(), before, display.poledbuff[..], ps, on)
        decreases y - x
      {
        OctantStep(done, x, y, f);
        if f >= 0 {
          y := y - 1;
          ddFy := ddFy + 2;
          f := f + ddFy;
        }
        x := x + 1;
        ddFx := ddFx + 2;
        f := f + ddFx;
        ps := PlotCorners(before, ps, x0, y0, x, y, corner, on);
        CorneredSnoc(x0, y0, done, (x, y), corner);
        done := done + [(x, y)];
      }
      OctantEnd(done, x, y, f);
    }

    method PlotPoles(ghost before: seq<bv8>, x0: int, y0: int, r: int, on: bool) returns (ghost ps: seq<Pixel>)
      requires display.Valid() && SizeOk(display.Shape(), before) && before == display.poledbuff[..]
      modifies display.poledbuff
      ensures ps == Poles(x0, y0, r)
      ensures SizeOk(display.Shape(), display.poledbuff[..])
      ensures Painted(display.Shape(), before, display.poledbuff[..], ps, on)
    {
      hide Painted, SizeOk, BufferSize;
      PaintedNothing(display.Shape(), before, on);
      ps := [];
      ps := Plot(before, ps, x0, y0 + r, on);
      ps := Plot(before, ps, x0, y0 - r, on);
      ps := Plot(before, ps, x0 + r, y0, on);
      ps := Plot(before, ps, x0 - r, y0, on);
    }

    method DrawCircle(x0: int, y0: int, r: int, on: bool)
      requires display.Valid()
      modifies display.poledbuff
      ensures SizeOk(display.Shape(), old(display.poledbuff[..])) && SizeOk(display.Shape(), display.poledbuff[..])
      ensures Painted(display.Shape(), old(display.poledbuff[..]), display.poledbuff[..], CirclePixels(x0, y0, r), on)
    {
      hide Painted, SizeOk, BufferSize, Reflections, Reflected, Poles, Octant;
      ghost var before := display.poledbuff[..];
      SizeFits(display.Shape(), before) by {
        DisplaySize(display);
      }
      var f, ddFx, ddFy, x, y := 1 - r, 1, -2 * r, 0, r;
      ghost var ps, done := [], [];
      ps := PlotPoles(before, x0, y0, r, on);
      NothingReflected(x0, y0, Poles(x0, y0, r));
      while x < y
        invariant ddFx == 2 * x + 1 && ddFy == -2 * y
        invariant Octant(0, r, 1 - r) == done + Octant(x, y, f)
        invariant ps == Poles(x0, y0, r) + Reflected(x0, y0, done)
        invariant SizeOk(display.Shape(), before) && SizeOk(display.Shape(), display.poledbuff[..])
        invariant Painted(display.Shape(), before, display.poledbuff[..], ps, on)
        decreases y - x
      {
        OctantStep(done, x, y, f);
        if f >= 0 {
          y := y - 1;
          ddFy := ddFy + 2;
          f := f + ddFy;
        }
        x := x + 1;
        ddFx := ddFx + 2;
        f := f + ddFx;
        ps := PlotEight(before, ps, x0, y0, x, y, on);
        ReflectedSnoc(x0, y0, done, (x, y));
        done := done + [(x, y)];
      }
      OctantEnd(done, x, y, f);
    }
  }

  /** The loop head of drawLine after `i` columns and `k` climbs. */
  predicate BresenhamState(startY: int, dx: int, dy: int, ystep: int, i: int, k: int, y: int, err: int) {
    && y == startY + ystep * k
    && err == dx / 2 - i * dy + k * dx
    && if dx == 0 then err == 0 && k == 0 else 0 <= err < dx
  }

  lemma BresenhamStart(startY: int, dx: int, dy: int, ystep: int)
    requires 0 <= dy <= dx
    ensures BresenhamState(startY, dx, dy, ystep, 0, 0, startY, dx / 2)
  {
  }

  lemma BresenhamStep(startY: int, dx: int, dy: int, ystep: int, i: int, k: int, y: int, err: int)
    requires 0 <= dy <= dx && (ystep == 1 || ystep == -1)
    requires BresenhamState(startY, dx, dy, ystep, i, k, y, err)
    ensures if err - dy < 0 then BresenhamState(startY, dx, dy, ystep, i + 1, k + 1, y + ystep, err - dy + dx)
            else BresenhamState(startY, dx, dy, ystep, i + 1, k, y, err - dy)
  {
    assert (i + 1) * dy == i * dy + dy && (k + 1) * dx == k * dx + dx;
  }

  lemma BresenhamPixel(x0: int, y0: int, x1: int, y1: int, i: int, k: int, y: int, err: int)
    requires var (ax, ay, bx, ey) := Canonical(x0, y0, x1, y1);
             BresenhamState(ay, bx - ax, Abs(ey - ay), if ay < ey then 1 else -1, i, k, y, err)
    ensures var (ax, ay, bx, ey) := Canonical(x0, y0, x1, y1);
            LinePixel(x0, y0, x1, y1, i) == if Steep(x0, y0, x1, y1) then (y, ax + i) else (ax + i, y)
  {
    hide Climb;
    var (ax, ay, bx, ey) := Canonical(x0, y0, x1, y1);
    var dx, dy := bx - ax, Abs(ey - ay);
    if dx > 0 {
      ClimbUnique(i, dx, dy, k);
    } else {
      ClimbOfDot(i, dy);
    }
  }

  lemma OctantStep(done: seq<Pixel>, x: int, y: int, f: int)
    requires x < y
    ensures var y' := if f >= 0 then y - 1 else y;
            var f' := if f >= 0 then f - 2 * y' else f;
            done + Octant(x, y, f) == (done + [(x + 1, y')]) + Octant(x + 1, y', f' + 2 * x + 3)
  {
  }

  lemma OctantEnd(done: seq<Pixel>, x: int, y: int, f: int)
    requires x >= y
    ensures done + Octant(x, y, f) == done
  {
  }

  lemma NothingReflected(x0: int, y0: int, ps: seq<Pixel>)
    ensures ps + Reflected(x0, y0, []) == ps
  {
  }

  lemma DisplaySize(d: Display)
    requires d.Valid()
    ensures Framebuffer.Proper(d.Shape()) && |d.poledbuff[..]| == BufferSize(d.Shape())
  {
  }

  lemma ClimbOfDot(i: int, dy: int)
    ensures Climb(i, 0, dy) == 0
  {
  }

  lemma NothingCornered(x0: int, y0: int, corner: bv8)
    ensures Cornered(x0, y0, [], corner) == []
  {
  }

  lemma CorneredSnoc(x0: int, y0: int, o: seq<Pixel>, p: Pixel, corner: bv8)
    ensures Cornered(x0, y0, o + [p], corner) == Cornered(x0, y0, o, corner) + Corners(x0, y0, p, corner)
  {
    assert (o + [p])[..|o|] == o;
  }

  lemma ReflectedSnoc(x0: int, y0: int, o: seq<Pixel>, p: Pixel)
    ensures Reflected(x0, y0, o + [p]) == Reflected(x0, y0, o) + Reflections(x0, y0, p)
  {
    assert (o + [p])[..|o|] == o;
  }
}
