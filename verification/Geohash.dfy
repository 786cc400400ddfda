/** `GeoHash::hashFromCoordinates`. The bisection points are dyadic, so the reals below are what doubles compute. */
module Geohash {
  const BASE32 := "0123456789bcdefghjkmnpqrstuvwxyz"
  const MAX_PRECISION := 12

  datatype Box = Box(lonMin: real, lonMax: real, latMin: real, latMax: real)

  const WORLD := Box(-180.0, 180.0, -90.0, 90.0)

  predicate OnGlobe(lon: real, lat: real) {
    -180.0 <= lon <= 180.0 && -90.0 <= lat <= 90.0
  }

  // ---------------------------------------------------------------- decoding

  /** One bisection: longitude on even positions, latitude on odd ones; a set bit keeps the upper half. */
  function Halve(b: Box, even: bool, bit: bool): Box {
    if even then
      var mid := (b.lonMin + b.lonMax) / 2.0;
      if bit then b.(lonMin := mid) else b.(lonMax := mid)
    else
      var mid := (b.latMin + b.latMax) / 2.0;
      if bit then b.(latMin := mid) else b.(latMax := mid)
  }

  /** The cell a bit string denotes, without reference to any point. */
  function Cell(bits: seq<bool>): Box {
    if bits == [] then WORLD
    else
      var n := |bits| - 1;
      Halve(Cell(bits[..n]), n % 2 == 0, bits[n])
  }

  function IndexFrom(c: char, i: nat): (k: nat)
    requires i <= 32
    ensures k <= 32
    decreases 32 - i
  {
    if i == 32 || BASE32[i] == c then i else IndexFrom(c, i + 1)
  }

  /** The low `n` bits of `k`, most significant first. */
  function ToBits(k: nat, n: nat): (bits: seq<bool>)
    ensures |bits| == n
  {
    if n == 0 then [] else ToBits(k / 2, n - 1) + [k % 2 == 1]
  }

  function Decode(hash: string): seq<bool> {
    if hash == "" then []
    else Decode(hash[..|hash| - 1]) + ToBits(IndexFrom(hash[|hash| - 1], 0), 5)
  }

  /** Cells are closed below and open above, except at the upper edge of the map. */
  predicate Inside(b: Box, lon: real, lat: real) {
    && b.lonMin <= lon && (lon < b.lonMax || lon == b.lonMax == 180.0)
    && b.latMin <= lat && (lat < b.latMax || lat == b.latMax == 90.0)
  }

  // ---------------------------------------------------------------- encoding

  function Bits(lon: real, lat: real, n: nat): (bits: seq<bool>)
    ensures |bits| == n
  {
    if n == 0 then []
    else
      var prior := Bits(lon, lat, n - 1);
      var b := Cell(prior);
      prior + [if (n - 1) % 2 == 0 then lon >= (b.lonMin + b.lonMax) / 2.0 else lat >= (b.latMin + b.latMax) / 2.0]
  }

  function Value(bits: seq<bool>): nat {
    if bits == [] then 0 else 2 * Value(bits[..|bits| - 1]) + if bits[|bits| - 1] then 1 else 0
  }

  function Shift(n: nat): nat {
    if n == 0 then 1 else 2 * Shift(n - 1)
  }

  lemma {:induction false} ValueBits(bits: seq<bool>)
    ensures Value(bits) < Shift(|bits|) && ToBits(Value(bits), |bits|) == bits
  {
    if bits != [] {
      var n := |bits| - 1;
      ValueBits(bits[..n]);
      assert Value(bits) / 2 == Value(bits[..n]);
      assert bits == bits[..n] + [bits[n]];
    }
  }

  lemma ValueOfFive(bits: seq<bool>)
    requires |bits| == 5
    ensures Value(bits) < 32 && ToBits(Value(bits), 5) == bits
  {
    hide Value, ToBits;
    ValueBits(bits);
    assert Shift(2) == 4 && Shift(3) == 8 && Shift(4) == 16;
  }

  /** The character for the `i`-th group of five bits. */
  function Letter(bits: seq<bool>): char
    requires |bits| == 5
  {
    ValueOfFive(bits);
    Base32(Value(bits))
  }

  function Base32(i: nat): char
    requires i < 32
  {
    BASE32[i]
  }

  function Hash(lon: real, lat: real, precision: nat): (h: string)
    ensures |h| == precision
  {
    if precision == 0 then ""
    else Hash(lon, lat, precision - 1) + [Letter(Bits(lon, lat, 5 * precision)[5 * precision - 5..])]
  }

  // ------------------------------------------------------------------ theorems

  /** The alphabet is strictly ascending, so a letter determines its index. */
  lemma AlphabetAscends(i: nat)
    requires i + 1 < 32
    ensures BASE32[i] < BASE32[i + 1]
  {
  }

  lemma {:induction false} AlphabetOrdered(i: nat, j: nat)
    requires i < j < 32
    ensures BASE32[i] < BASE32[j]
    decreases j
  {
    AlphabetAscends(j - 1);
    if i < j - 1 {
      AlphabetOrdered(i, j - 1);
    }
  }

  lemma {:induction false} IndexOfLetter(k: nat, i: nat)
    requires i <= k < 32
    ensures IndexFrom(BASE32[k], i) == k
    decreases k - i
  {
    if i < k {
      AlphabetOrdered(i, k);
      IndexOfLetter(k, i + 1);
    }
  }

  lemma {:induction false} BitsPrefix(lon: real, lat: real, n: nat, m: nat)
    requires n <= m
    ensures Bits(lon, lat, n) == Bits(lon, lat, m)[..n]
    decreases m
  {
    if n < m {
      BitsPrefix(lon, lat, n, m - 1);
      assert Bits(lon, lat, m)[..m - 1] == Bits(lon, lat, m - 1);
      assert Bits(lon, lat, m)[..n] == Bits(lon, lat, m)[..m - 1][..n];
    }
  }

  /** Decoding the hash yields the bits of the bisection. */
  lemma {:induction false} DecodeHash(lon: real, lat: real, precision: nat)
    ensures Decode(Hash(lon, lat, precision)) == Bits(lon, lat, 5 * precision)
  {
    hide Value, Cell, ToBits, IndexFrom;
    if precision > 0 {
      var n := 5 * precision;
      var bits := Bits(lon, lat, n);
      DecodeHash(lon, lat, precision - 1);
      ValueOfFive(bits[n - 5..]);
      IndexOfLetter(Value(bits[n - 5..]), 0);
      BitsPrefix(lon, lat, n - 5, n);
      hide Bits;
      assert bits == bits[..n - 5] + bits[n - 5..];
      var h := Hash(lon, lat, precision);
      assert h[..|h| - 1] == Hash(lon, lat, precision - 1);
    }
  }

  lemma {:induction false} PointInCell(lon: real, lat: real, n: nat)
    requires OnGlobe(lon, lat)
    ensures Inside(Cell(Bits(lon, lat, n)), lon, lat)
  {
    if n > 0 {
      PointInCell(lon, lat, n - 1);
      assert Bits(lon, lat, n)[..n - 1] == Bits(lon, lat, n - 1);
    }
  }

  function Pow2(n: nat): (p: real)
    ensures p >= 1.0
  {
    if n == 0 then 1.0 else 2.0 * Pow2(n - 1)
  }

  /** The length of one of 2^n equal parts of `y`. */
  function Part(y: real, n: nat): real {
    y / Pow2(n)
  }

  lemma PartHalves(y: real, n: nat)
    ensures Part(y, 0) == y && Part(y, n + 1) == Part(y, n) / 2.0
    ensures y > 0.0 ==> Part(y, n) > 0.0
  {
    var p := Pow2(n);
    var q := y / p;
    assert q * p == y;
    assert (q / 2.0) * (2.0 * p) == y;
    assert y / (2.0 * p) == q / 2.0;
  }

  lemma {:induction false} CellSize(bits: seq<bool>)
    ensures var b := Cell(bits);
            && b.lonMax - b.lonMin == Part(360.0, (|bits| + 1) / 2)
            && b.latMax - b.latMin == Part(180.0, |bits| / 2)
            && b.lonMin < b.lonMax <= 180.0 && b.latMin < b.latMax <= 90.0
  {
    hide Part, Pow2;
    PartHalves(360.0, 0);
    PartHalves(180.0, 0);
    if bits != [] {
      var n := |bits| - 1;
      CellSize(bits[..n]);
      PartHalves(360.0, (n + 1) / 2);
      PartHalves(180.0, n / 2);
      assert n % 2 == 0 ==> (|bits| + 1) / 2 == (n + 1) / 2 + 1 && |bits| / 2 == n / 2;
      assert n % 2 == 1 ==> (|bits| + 1) / 2 == (n + 1) / 2 && |bits| / 2 == n / 2 + 1;
    }
  }

  lemma HalveInside(b: Box, even: bool, bit: bool, lon: real, lat: real)
    requires b.lonMin < b.lonMax <= 180.0 && b.latMin < b.latMax <= 90.0
    requires Inside(Halve(b, even, bit), lon, lat)
    ensures Inside(b, lon, lat)
    ensures bit == if even then lon >= (b.lonMin + b.lonMax) / 2.0 else lat >= (b.latMin + b.latMax) / 2.0
  {
  }

  /** Cells of one depth do not overlap: a bit string whose cell holds the point is the point's bit string. */
  lemma {:induction false} CellUnique(lon: real, lat: real, bits: seq<bool>)
    requires OnGlobe(lon, lat) && Inside(Cell(bits), lon, lat)
    ensures bits == Bits(lon, lat, |bits|)
  {
    hide Cell, Bits, Inside, Halve;
    if bits != [] {
      var n := |bits| - 1;
      CellStep(bits);
      CellSize(bits[..n]);
      HalveInside(Cell(bits[..n]), n % 2 == 0, bits[n], lon, lat);
      CellUnique(lon, lat, bits[..n]);
      BitsStep(lon, lat, n);
      assert bits == bits[..n] + [bits[n]];
    }
  }

  lemma CellStep(bits: seq<bool>)
    requires bits != []
    ensures var n := |bits| - 1; Cell(bits) == Halve(Cell(bits[..n]), n % 2 == 0, bits[n])
  {
  }

  lemma BitsStep(lon: real, lat: real, n: nat)
    ensures var b := Cell(Bits(lon, lat, n));
            var up := if n % 2 == 0 then lon >= (b.lonMin + b.lonMax) / 2.0 else lat >= (b.latMin + b.latMax) / 2.0;
            Bits(lon, lat, n + 1) == Bits(lon, lat, n) + [up]
  {
  }

  /** A hash names a cell that contains the point and has the size its length promises. */
  lemma HashCell(lon: real, lat: real, precision: nat)
    requires OnGlobe(lon, lat)
    ensures var c := Cell(Decode(Hash(lon, lat, precision)));
            && Inside(c, lon, lat)
            && c.lonMax - c.lonMin == Part(360.0, (5 * precision + 1) / 2)
            && c.latMax - c.latMin == Part(180.0, 5 * precision / 2)
    ensures forall i :: 0 <= i < precision ==> Hash(lon, lat, precision)[i] in BASE32
  {
    hide Cell, Bits, Hash, Decode, Part, Inside;
    DecodeHash(lon, lat, precision);
    PointInCell(lon, lat, 5 * precision);
    var bits := Bits(lon, lat, 5 * precision);
    CellSize(bits);
    HashLetters(lon, lat, precision);
  }

  lemma {:induction false} HashLetters(lon: real, lat: real, precision: nat)
    ensures forall i :: 0 <= i < precision ==> Hash(lon, lat, precision)[i] in BASE32
  {
    if precision > 0 {
      HashLetters(lon, lat, precision - 1);
      ValueOfFive(Bits(lon, lat, 5 * precision)[5 * precision - 5..]);
    }
  }

  /** Two points share a hash exactly when they lie in the same cell. */
  lemma SameHashSameCell(lon: real, lat: real, lon': real, lat': real, precision: nat)
    requires OnGlobe(lon, lat) && OnGlobe(lon', lat')
    ensures Hash(lon, lat, precision) == Hash(lon', lat', precision)
            <==> Inside(Cell(Decode(Hash(lon, lat, precision))), lon', lat')
  {
    DecodeHash(lon, lat, precision);
    DecodeHash(lon', lat', precision);
    PointInCell(lon', lat', 5 * precision);
    if Inside(Cell(Bits(lon, lat, 5 * precision)), lon', lat') {
      CellUnique(lon', lat', Bits(lon, lat, 5 * precision));
      SameBitsSameHash(lon, lat, lon', lat', precision);
    }
  }

  lemma {:induction false} SameBitsSameHash(lon: real, lat: real, lon': real, lat': real, precision: nat)
    requires Bits(lon, lat, 5 * precision) == Bits(lon', lat', 5 * precision)
    ensures Hash(lon, lat, precision) == Hash(lon', lat', precision)
  {
    if precision > 0 {
      BitsPrefix(lon, lat, 5 * precision - 5, 5 * precision);
      BitsPrefix(lon', lat', 5 * precision - 5, 5 * precision);
      SameBitsSameHash(lon, lat, lon', lat', precision - 1);
    }
  }

  lemma {:induction false} HashPrefix(lon: real, lat: real, p: nat, q: nat)
    requires p <= q
    ensures Hash(lon, lat, p) <= Hash(lon, lat, q)
    decreases q
  {
    if p < q {
      HashPrefix(lon, lat, p, q - 1);
    }
  }

  // -------------------------------------------------------------- the algorithm

  lemma BisectStart(lon: real, lat: real)
    ensures Bits(lon, lat, 0) == [] && Cell([]) == WORLD && Value([]) == 0 && Hash(lon, lat, 0) == ""
  {
  }

  lemma HashStep(lon: real, lat: real, k: nat)
    ensures var five := Bits(lon, lat, 5 * k + 5)[5 * k..];
            Value(five) < 32 && Hash(lon, lat, k + 1) == Hash(lon, lat, k) + [Base32(Value(five))]
  {
    ValueOfFive(Bits(lon, lat, 5 * k + 5)[5 * k..]);
  }

  method HashFromCoordinates(lon: real, lat: real, precision: int) returns (geohash: string)
    ensures OnGlobe(lon, lat) ==>
              geohash == Hash(lon, lat, if precision < 0 || precision > MAX_PRECISION then MAX_PRECISION else precision)
    ensures !OnGlobe(lon, lat) ==> geohash == ""
  {
    hide Cell, Bits, Value, Hash, Base32, Letter;
    BisectStart(lon, lat);
    var length := if precision < 0 || precision > MAX_PRECISION then MAX_PRECISION else precision;
    var idx, bit, evenBit := 0, 0, true;
    geohash := "";
    var latMin, latMax, lonMin, lonMax := -90.0, 90.0, -180.0, 180.0;
    if lon < lonMin || lon > lonMax {
      return;
    }
    if lat < latMin || lat > latMax {
      return;
    }
    ghost var n := 0;
    while |geohash| < length
      invariant 0 <= bit < 5 && |geohash| <= length && n == 5 * |geohash| + bit
      invariant |geohash| == length ==> bit == 0
      invariant evenBit == (n % 2 == 0)
      invariant Box(lonMin, lonMax, latMin, latMax) == Cell(Bits(lon, lat, n))
      invariant geohash == Hash(lon, lat, |geohash|)
      invariant idx == Value(Bits(lon, lat, n)[5 * |geohash|..])
      decreases length - |geohash|, 5 - bit
    {
      BisectStep(lon, lat, n, 5 * |geohash|);
      if evenBit {
        var lonMid := (lonMin + lonMax) / 2.0;
        if lon >= lonMid {
          idx := idx * 2 + 1;
          lonMin := lonMid;
        } else {
          idx := idx * 2;
          lonMax := lonMid;
        }
      } else {
        var latMid := (latMin + latMax) / 2.0;
        if lat >= latMid {
          idx := idx * 2 + 1;
          latMin := latMid;
        } else {
          idx := idx * 2;
          latMax := latMid;
        }
      }
      evenBit := !evenBit;
      n := n + 1;
      bit := bit + 1;
      if bit == 5 {
        HashStep(lon, lat, |geohash|);
        geohash := geohash + [Base32(idx)];
        assert Bits(lon, lat, n)[5 * |geohash|..] == [];
        bit := 0;
        idx := 0;
      }
    }
  }

  /** One bisection: how the cell and the bits collected since `start` change. */
  lemma BisectStep(lon: real, lat: real, n: nat, start: nat)
    requires start <= n
    ensures var b := Cell(Bits(lon, lat, n));
            var up := if n % 2 == 0 then lon >= (b.lonMin + b.lonMax) / 2.0 else lat >= (b.latMin + b.latMax) / 2.0;
            && Cell(Bits(lon, lat, n + 1)) == Halve(b, n % 2 == 0, up)
            && Value(Bits(lon, lat, n + 1)[start..]) == 2 * Value(Bits(lon, lat, n)[start..]) + if up then 1 else 0
  {
    hide Halve, Cell, Bits;
    var bits := Bits(lon, lat, n + 1);
    BitsStep(lon, lat, n);
    CellStep(bits);
    assert bits[..n] == Bits(lon, lat, n);
    assert bits[start..][..n - start] == Bits(lon, lat, n)[start..];
  }
}
