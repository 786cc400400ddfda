/** The monochrome frame buffer of `Adafruit_SSD1306`, read back as a rotated grid of pixels. */
module Framebuffer {
  /** _BV(k) */
  function Mask(k: nat): bv8
    requires k < 8
  {
    match k
    case 0 => 1 case 1 => 2 case 2 => 4 case 3 => 8
    case 4 => 16 case 5 => 32 case 6 => 64 case _ => 128
  }

  predicate Bit(b: bv8, k: nat)
    requires k < 8
  {
    b & Mask(k) != 0
  }

  function PutBit(b: bv8, k: nat, on: bool): bv8
    requires k < 8
  {
    if on then b | Mask(k) else b & !Mask(k)
  }

  /** Bit k is the k-th from the least significant one. */
  lemma BitMeaning(b: bv8, k: nat)
    requires k < 8
    ensures Bit(b, k) <==> (b >> k) & 1 == 1
  {
    match k
    case 0 => case 1 => case 2 => case 3 => case 4 => case 5 => case 6 => case _ =>
  }

  lemma PutBitExact(b: bv8, k: nat, on: bool, j: nat)
    requires k < 8 && j < 8
    ensures Bit(PutBit(b, k, on), j) == if j == k then on else Bit(b, j)
  {
    MasksDisjoint(k, j);
    BitLogic(b, Mask(k), Mask(j));
  }

  lemma MasksDisjoint(k: nat, j: nat)
    requires k < 8 && j < 8
    ensures Mask(k) != 0 && (k != j ==> Mask(k) & Mask(j) == 0)
  {
  }

  lemma BitLogic(b: bv8, m: bv8, n: bv8)
    ensures m & n == 0 ==> (b | m) & n == b & n && (b & !m) & n == b & n
    ensures (b | m) & m == m && (b & !m) & m == 0
  {
  }

  // -------------------------------------------------------------------- geometry

  datatype Screen = Screen(width: int, height: int, rotation: nat)   // native size, rotation 0..3

  ghost predicate Proper(s: Screen) {
    s.width > 0 && s.height > 0 && s.height % 8 == 0 && s.rotation < 4
  }

  function Width(s: Screen): int {
    if s.rotation % 2 == 0 then s.width else s.height
  }

  function Height(s: Screen): int {
    if s.rotation % 2 == 0 then s.height else s.width
  }

  predicate OnScreen(s: Screen, x: int, y: int) {
    0 <= x < Width(s) && 0 <= y < Height(s)
  }

  /** The native position of a logical pixel. */
  function Native(s: Screen, x: int, y: int): (int, int) {
    match s.rotation
    case 1 => (s.width - y - 1, x)
    case 2 => (s.width - x - 1, s.height - y - 1)
    case 3 => (y, s.height - x - 1)
    case _ => (x, y)
  }

  /** Each rotation shows the previous one turned by a quarter; four of them give the native picture again. */
  lemma QuarterTurn(s: Screen, x: int, y: int)
    requires s.rotation < 4
    ensures Native(s.(rotation := 0), x, y) == (x, y)
    ensures Native(s.(rotation := (s.rotation + 1) % 4), x, y) == Native(s, Width(s) - 1 - y, x)
  {
  }

  function ByteIndex(s: Screen, x: int, y: int): int {
    Native(s, x, y).0 + Native(s, x, y).1 / 8 * s.width
  }

  function BitIndex(s: Screen, x: int, y: int): (k: nat)
    ensures k < 8
  {
    Native(s, x, y).1 % 8
  }

  function BufferSize(s: Screen): int {
    s.width * s.height / 8
  }

  lemma NativeInside(s: Screen, x: int, y: int)
    requires Proper(s) && OnScreen(s, x, y)
    ensures 0 <= Native(s, x, y).0 < s.width && 0 <= Native(s, x, y).1 < s.height
  {
  }

  lemma RowBounds(col: int, row: int, width: int, rows: int)
    requires 0 <= col < width && 0 <= row < rows
    ensures 0 <= col + row * width < width * rows
  {
    assert row * width <= (rows - 1) * width;
  }

  /** Every pixel on the screen has its byte inside the buffer. */
  lemma IndexInRange(s: Screen, x: int, y: int)
    requires Proper(s) && OnScreen(s, x, y)
    ensures 0 <= ByteIndex(s, x, y) < BufferSize(s)
  {
    NativeInside(s, x, y);
    RowBounds(Native(s, x, y).0, Native(s, x, y).1 / 8, s.width, s.height / 8);
    assert s.width * s.height == 8 * (s.width * (s.height / 8));
  }

  lemma RowsDisjoint(c: int, r: int, c': int, r': int, width: int)
    requires 0 <= c < width && 0 <= c' < width
    requires c + r * width == c' + r' * width
    ensures c == c' && r == r'
  {
    if r < r' {
      RowStep(r, r', width);
    } else if r > r' {
      RowStep(r', r, width);
    }
  }

  lemma RowStep(r: int, r': int, width: int)
    requires r < r' && width > 0
    ensures r * width + width <= r' * width
  {
    var d := r' - r - 1;
    assert d * width >= 0;
    assert r' * width == (r + 1 + d) * width == r * width + width + d * width;
  }

  /** Different pixels occupy different bits. */
  lemma BitsDistinct(s: Screen, x: int, y: int, u: int, v: int)
    requires Proper(s) && OnScreen(s, x, y) && OnScreen(s, u, v)
    requires ByteIndex(s, x, y) == ByteIndex(s, u, v) && BitIndex(s, x, y) == BitIndex(s, u, v)
    ensures x == u && y == v
  {
    NativeInside(s, x, y);
    NativeInside(s, u, v);
    var p, q := Native(s, x, y), Native(s, u, v);
    RowsDisjoint(p.0, p.1 / 8, q.0, q.1 / 8, s.width);
    assert p == q;
  }

  /** The pixel the buffer shows at logical position (x, y). */
  predicate Lit(s: Screen, buf: seq<bv8>, x: int, y: int)
    requires 0 <= ByteIndex(s, x, y) < |buf|
  {
    Bit(buf[ByteIndex(s, x, y)], BitIndex(s, x, y))
  }

  /** The panel's page layout: byte `col` of page `page` holds eight rows of its column, topmost in the lowest bit. */
  lemma PageLayout(s: Screen, buf: seq<bv8>, col: int, page: int, k: nat)
    requires Proper(s) && s.rotation == 0 && |buf| == BufferSize(s)
    requires 0 <= col < s.width && 0 <= page < s.height / 8 && k < 8
    ensures 0 <= page * s.width + col < |buf| && ByteIndex(s, col, 8 * page + k) == page * s.width + col
    ensures Lit(s, buf, col, 8 * page + k) == ((buf[page * s.width + col] >> k) & 1 == 1)
  {
    IndexInRange(s, col, 8 * page + k);
    assert (8 * page + k) / 8 == page && (8 * page + k) % 8 == k;
    BitMeaning(buf[page * s.width + col], k);
  }

  ghost predicate SizeOk(s: Screen, buf: seq<bv8>) {
    && Proper(s) && |buf| == BufferSize(s)
    && forall x, y :: OnScreen(s, x, y) ==> 0 <= ByteIndex(s, x, y) < |buf|
  }

  /** `after` shows `before` with exactly the on-screen pixels of `ps` set to `on`. */
  ghost predicate Painted(s: Screen, before: seq<bv8>, after: seq<bv8>, ps: seq<(int, int)>, on: bool)
    requires SizeOk(s, before) && SizeOk(s, after)
  {
    forall x, y :: OnScreen(s, x, y) ==>
      Lit(s, after, x, y) == if (x, y) in ps then on else Lit(s, before, x, y)
  }

  function Put(s: Screen, buf: seq<bv8>, x: int, y: int, on: bool): (r: seq<bv8>)
    requires SizeOk(s, buf)
    ensures |r| == |buf|
  {
    if OnScreen(s, x, y) then
      var i := ByteIndex(s, x, y);
      buf[i := PutBit(buf[i], BitIndex(s, x, y), on)]
    else buf
  }

  /** One drawPixel changes that pixel, if it is on the screen, and no other. */
  lemma PutPaints(s: Screen, buf: seq<bv8>, x: int, y: int, on: bool)
    requires SizeOk(s, buf)
    ensures SizeOk(s, Put(s, buf, x, y, on)) && Painted(s, buf, Put(s, buf, x, y, on), [(x, y)], on)
  {
    hide PutBit, Bit, Native, ByteIndex, BitIndex, OnScreen;
    var r := Put(s, buf, x, y, on);
    forall u, v | OnScreen(s, u, v)
      ensures Lit(s, r, u, v) == if (u, v) in [(x, y)] then on else Lit(s, buf, u, v)
    {
      if OnScreen(s, x, y) && ByteIndex(s, u, v) == ByteIndex(s, x, y) {
        PutBitExact(buf[ByteIndex(s, x, y)], BitIndex(s, x, y), on, BitIndex(s, u, v));
        if BitIndex(s, u, v) == BitIndex(s, x, y) {
          BitsDistinct(s, x, y, u, v);
        }
      }
    }
  }

  lemma PaintedNothing(s: Screen, buf: seq<bv8>, on: bool)
    requires SizeOk(s, buf)
    ensures Painted(s, buf, buf, [], on)
  {
  }

  lemma PaintedAppend(s: Screen, a: seq<bv8>, b: seq<bv8>, c: seq<bv8>, ps: seq<(int, int)>, qs: seq<(int, int)>, on: bool)
    requires SizeOk(s, a) && SizeOk(s, b) && SizeOk(s, c)
    requires Painted(s, a, b, ps, on) && Painted(s, b, c, qs, on)
    ensures Painted(s, a, c, ps + qs, on)
  {
    hide OnScreen, Lit;
    forall x, y | OnScreen(s, x, y)
      ensures Lit(s, c, x, y) == if (x, y) in ps + qs then on else Lit(s, a, x, y)
    {
    }
  }

  lemma SizeFits(s: Screen, buf: seq<bv8>)
    requires Proper(s) && |buf| == BufferSize(s)
    ensures SizeOk(s, buf)
  {
    forall x, y | OnScreen(s, x, y)
      ensures 0 <= ByteIndex(s, x, y) < |buf|
    {
      IndexInRange(s, x, y);
    }
  }

  // ------------------------------------------------------------------- the object

  datatype OledType = Adafruit128x32 | Adafruit128x64 | Seeed128x64 | Seeed96x96 | Unknown

  /** select_oled */
  function NativeSize(t: OledType): (int, int) {
    match t
    case Adafruit128x32 => (128, 32)
    case Seeed96x96 => (96, 96)
    case _ => (128, 64)
  }

  class Display {
    const width: int
    const height: int
    const poledbuff: array<bv8>
    var rotation: nat

    function Shape(): Screen
      reads this
    {
      Screen(width, height, rotation)
    }

    ghost predicate Valid()
      reads this
    {
      Proper(Shape()) && poledbuff.Length == BufferSize(Shape())
    }

    /** Any supported type yields a buffer with one bit for every pixel. */
    constructor (t: OledType)
      ensures Valid() && (width, height) == NativeSize(t) && rotation == 0 && fresh(poledbuff)
    {
      width, height, rotation := NativeSize(t).0, NativeSize(t).1, 0;
      poledbuff := new bv8[NativeSize(t).0 * NativeSize(t).1 / 8];
    }

    method SetRotation(x: nat)
      requires Valid()
      modifies this
      ensures Valid() && rotation == x % 4
    {
      rotation := x % 4;
    }

    method DrawPixel(x: int, y: int, white: bool)
      requires Valid()
      modifies poledbuff
      ensures SizeOk(Shape(), old(poledbuff[..])) && SizeOk(Shape(), poledbuff[..])
      ensures Painted(Shape(), old(poledbuff[..]), poledbuff[..], [(x, y)], white)
    {
      hide PutBit, BufferSize, Painted;
      SizeFits(Shape(), poledbuff[..]);
      PutPaints(Shape(), poledbuff[..], x, y, white);
      if x < 0 || x >= Width(Shape()) || y < 0 || y >= Height(Shape()) {
        return;
      }
      var nx, ny := x, y;
      match rotation {
        case 1 =>
          nx, ny := ny, nx;
          nx := width - nx - 1;
        case 2 =>
          nx := width - nx - 1;
          ny := height - ny - 1;
        case 3 =>
          nx, ny := ny, nx;
          ny := height - ny - 1;
        case _ =>
      }
      var p := nx + ny / 8 * width;
      poledbuff[p] := PutBit(poledbuff[p], ny % 8, white);
      assert poledbuff[..] == Put(Shape(), old(poledbuff[..]), x, y, white);
    }
  }
}
