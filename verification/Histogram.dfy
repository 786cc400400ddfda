/** The autoscaling histogram, over reals. A value and the object that implements it. */
module Histogram {
  /** std::numeric_limits<double>::epsilon() */
  const EPSILON := 1.0 / 4503599627370496.0

  /** std::lround: to nearest, halves away from zero. */
  function Round(x: real): int {
    if x >= 0.0 then (x + 0.5).Floor else -(0.5 - x).Floor
  }

  function Abs(x: real): real {
    if x < 0.0 then -x else x
  }

  datatype Histo = Histo(
    n: int, min: real, max: real, autoscale: bool, under: real, over: real, bins: map<int, real>)

  function Content(bins: map<int, real>, b: int): real {
    if b in bins then bins[b] else 0.0
  }

  function Sum(bins: map<int, real>, k: int): real
    decreases k
  {
    if k <= 0 then 0.0 else Sum(bins, k - 1) + Content(bins, k - 1)
  }

  function Entries(h: Histo): real {
    h.under + h.over + Sum(h.bins, h.n)
  }

  /** Position of `v` on the bin scale, before rounding. */
  function Coord(h: Histo, v: real): real
    requires h.max - h.min > 0.0
  {
    (v - h.min) / (h.max - h.min) * (h.n - 1) as real
  }

  function Value2Bin(h: Histo, v: real): int {
    if h.max - h.min <= 0.0 then -1 else Round(Coord(h, v))
  }

  function Bin2Value(h: Histo, b: int): real
    requires h.n != 1
  {
    var range := h.max - h.min;
    if range <= 0.0 then -1.0 else range * b as real / (h.n - 1) as real + h.min
  }

  function BinWidth(h: Histo): real
    requires h.n != 1
  {
    (h.max - h.min) / (h.n - 1) as real
  }

  /** Keys stay inside the bin range. */
  ghost predicate KeysOk(h: Histo) {
    forall b :: b in h.bins ==> 0 <= b < h.n
  }

  ghost predicate Proper(h: Histo) {
    h.n >= 2 && h.min < h.max && KeysOk(h)
  }

  predicate Occupied(bins: map<int, real>, b: int) {
    Abs(Content(bins, b)) > EPSILON
  }

  /** Bins are empty or hold more than epsilon. */
  ghost predicate Clean(h: Histo) {
    forall b :: 0 <= b < h.n ==> Content(h.bins, b) == 0.0 || Content(h.bins, b) > EPSILON
  }

  // --------------------------------------------------------------- operations

  /** Book `c` at value `v`: underflow, overflow or a bin. */
  function Deposit(h: Histo, v: real, c: real): Histo {
    var bin := Value2Bin(h, v);
    if bin < 0 then h.(under := h.under + c)
    else if bin >= h.n then h.(over := h.over + c)
    else h.(bins := h.bins[bin := Content(h.bins, bin) + c])
  }

  /** The redistribution loop of rescale, after the bins below `k`. */
  function Spread(target: Histo, prior: Histo, k: nat): Histo
    requires prior.n != 1
  {
    if k == 0 then target
    else
      var g := Spread(target, prior, k - 1);
      if Occupied(prior.bins, k - 1) then Deposit(g, Bin2Value(prior, k - 1), Content(prior.bins, k - 1)) else g
  }

  function Emptied(h: Histo, center: real, width: real): Histo {
    h.(min := center - width / 2.0, max := center + width / 2.0, under := 0.0, over := 0.0, bins := map[])
  }

  function RescaleTo(h: Histo, center: real, width: real): Histo {
    if width <= 0.0 then h
    else if h.max - h.min <= 0.0 || h.n <= 1 then Emptied(h, center, width)
    else Spread(Emptied(h, center, width), h, h.n)
  }

  predicate Reenters(h: Histo, x: real) {
    h.autoscale && Entries(h) < 0.000001 && !(0 <= Value2Bin(h, x) < h.n)
  }

  function Fill(h: Histo, x: real, mult: real): Histo {
    Deposit(if Reenters(h, x) then RescaleTo(h, x, h.max - h.min) else h, x, mult)
  }

  /** The first occupied bin at or above `b`, or -1. */
  function LowestFrom(h: Histo, b: nat): int
    decreases h.n - b
  {
    if b >= h.n then -1 else if Occupied(h.bins, b) then b else LowestFrom(h, b + 1)
  }

  /** The last occupied bin below `b`, or -1. */
  function HighestBelow(h: Histo, b: int): int {
    if b <= 0 then -1 else if Occupied(h.bins, b - 1) then b - 1 else HighestBelow(h, b - 1)
  }

  /** rescale(): widen by under/overflow share, or shrink around the occupied bins. */
  function Autoscale(h: Histo): Histo
    requires h.n != 1
  {
    var entries := Entries(h) - (h.under + h.over);
    var range := h.max - h.min;
    var lowest, highest := LowestFrom(h, 0), HighestBelow(h, h.n);
    var lowestEntry, highestEntry := Bin2Value(h, lowest), Bin2Value(h, highest);
    if !h.autoscale || Entries(h) < 3.0 then h
    else if h.under > 0.0 && h.over > 0.0 && h.under + h.over > 0.01 * entries then
      RescaleTo(h, 0.5 * range + h.min, 1.1 * range)
    else if h.under > 0.005 * entries then
      var newMin := h.max - range * 1.2;
      RescaleTo(h, 0.5 * (newMin + h.max), h.max - newMin)
    else if h.over > 0.005 * entries then
      var newMax := h.min + range * 1.2;
      RescaleTo(h, 0.5 * (h.min + newMax), newMax - h.min)
    else if h.under < 0.001 && h.over < 0.001 && entries > 100.0 && h.n != 0
            && (highest - lowest) as real / h.n as real < 0.05 then
      RescaleTo(h, 0.5 * (highestEntry - lowestEntry) + lowestEntry, 0.8 * range)
    else h
  }

  // ---------------------------------------------------------- rounding and bins

  lemma RoundClose(x: real)
    ensures -0.5 <= Round(x) as real - x <= 0.5
  {
  }

  lemma RoundMonotone(x: real, y: real)
    requires x <= y
    ensures Round(x) <= Round(y)
  {
  }

  lemma RoundInside(x: real, n: int)
    requires -0.5 < x < n as real - 0.5
    ensures 0 <= Round(x) < n
  {
  }

  lemma DivideBack(x: real, y: real)
    requires y != 0.0
    ensures x / y * y == x && x * y / y == x
  {
  }

  lemma ScaleDown(x: real, y: real, m: real)
    requires m > 0.0 && x * m <= y * m
    ensures x <= y
  {
  }

  lemma ScaleUp(x: real, y: real, m: real)
    requires m >= 0.0 && x <= y
    ensures x * m <= y * m
  {
  }

  lemma ScaleUpStrictly(x: real, y: real, m: real)
    requires m > 0.0 && x < y
    ensures x * m < y * m
  {
  }

  /** Division-free characterisation of bin centres and coordinates. */
  lemma BinEquation(h: Histo, b: int)
    requires Proper(h)
    ensures (Bin2Value(h, b) - h.min) * (h.n - 1) as real == (h.max - h.min) * b as real
  {
    DivideBack((h.max - h.min) * b as real, (h.n - 1) as real);
  }

  lemma CoordEquation(h: Histo, v: real)
    requires h.max - h.min > 0.0
    ensures Coord(h, v) * (h.max - h.min) == (v - h.min) * (h.n - 1) as real
  {
    var range, m := h.max - h.min, (h.n - 1) as real;
    var q := (v - h.min) / range;
    DivideBack(v - h.min, range);
    assert q * m * range == (q * range) * m;
  }

  lemma BinCoord(h: Histo, b: int)
    requires Proper(h)
    ensures Coord(h, Bin2Value(h, b)) == b as real
  {
    hide Coord, Bin2Value;
    var range, t := h.max - h.min, Coord(h, Bin2Value(h, b));
    BinEquation(h, b);
    CoordEquation(h, Bin2Value(h, b));
    assert t * range == b as real * range;
    ScaleDown(t, b as real, range);
    ScaleDown(b as real, t, range);
  }

  /** Every bin centre falls into its own bin. */
  lemma BinRoundTrip(h: Histo, b: int)
    requires Proper(h)
    ensures Value2Bin(h, Bin2Value(h, b)) == b
  {
    hide Coord, Bin2Value;
    BinCoord(h, b);
    RoundClose(b as real);
  }

  lemma BinMonotone(h: Histo, v: real, w: real)
    requires h.n >= 1 && v <= w
    ensures Value2Bin(h, v) <= Value2Bin(h, w)
  {
    hide Coord;
    var range := h.max - h.min;
    if range > 0.0 {
      CoordEquation(h, v);
      CoordEquation(h, w);
      ScaleUp(v - h.min, w - h.min, (h.n - 1) as real);
      ScaleDown(Coord(h, v), Coord(h, w), range);
      RoundMonotone(Coord(h, v), Coord(h, w));
    }
  }

  /** Booking a value moves it by at most half a bin width. */
  lemma BinError(h: Histo, v: real)
    requires Proper(h)
    ensures 2.0 * Abs(Bin2Value(h, Value2Bin(h, v)) - v) <= BinWidth(h)
  {
    hide Coord, Bin2Value, Round;
    var range, m := h.max - h.min, (h.n - 1) as real;
    var t := Coord(h, v);
    var b := Round(t);
    RoundClose(t);
    CoordEquation(h, v);
    BinEquation(h, b);
    DivideBack(range, m);
    HalfStep(Bin2Value(h, b) - h.min, v - h.min, m, range, b as real, t, range / m);
  }

  lemma HalfStep(v': real, v: real, m: real, range: real, b: real, t: real, w: real)
    requires m > 0.0 && range > 0.0
    requires v' * m == range * b && t * range == v * m && w * m == range
    requires -0.5 <= b - t <= 0.5
    ensures 2.0 * Abs(v' - v) <= w
  {
    var d, u := v' - v, b - t;
    assert d * m == u * range;
    ScaleUp(u, 0.5, range);
    ScaleUp(-0.5, u, range);
    AtMost(d, 0.5 * w, m, u * range, 0.5 * range);
    AtMost(-0.5 * w, d, m, -0.5 * range, u * range);
  }

  lemma AtMost(x: real, y: real, m: real, p: real, q: real)
    requires m > 0.0 && x * m == p && y * m == q && p <= q
    ensures x <= y
  {
    ScaleDown(x, y, m);
  }

  // ------------------------------------------------------------- conservation

  lemma {:induction false} SumUpdate(bins: map<int, real>, b: int, c: real, k: int)
    requires 0 <= b
    ensures Sum(bins[b := Content(bins, b) + c], k) == Sum(bins, k) + if b < k then c else 0.0
    decreases k
  {
    if k > 0 {
      SumUpdate(bins, b, c, k - 1);
    }
  }

  lemma {:induction false} SumEmpty(k: int)
    ensures Sum(map[], k) == 0.0
    decreases k
  {
    if k > 0 {
      SumEmpty(k - 1);
    }
  }

  lemma DepositAdds(h: Histo, v: real, c: real)
    ensures Entries(Deposit(h, v, c)) == Entries(h) + c
    ensures KeysOk(h) ==> KeysOk(Deposit(h, v, c))
    ensures Proper(h) ==> Proper(Deposit(h, v, c))
  {
    var bin := Value2Bin(h, v);
    if 0 <= bin < h.n {
      SumUpdate(h.bins, bin, c, h.n);
    }
  }

  /** Total of the occupied bins. */
  function OccupiedSum(bins: map<int, real>, k: int): real
    decreases k
  {
    if k <= 0 then 0.0 else OccupiedSum(bins, k - 1) + if Occupied(bins, k - 1) then Content(bins, k - 1) else 0.0
  }

  lemma {:induction false} SpreadEntries(target: Histo, prior: Histo, k: nat)
    requires prior.n != 1
    ensures var g := Spread(target, prior, k);
            && Entries(g) == Entries(target) + OccupiedSum(prior.bins, k)
            && (KeysOk(target) ==> KeysOk(g))
            && g.n == target.n && g.min == target.min && g.max == target.max && g.autoscale == target.autoscale
  {
    if k > 0 {
      SpreadEntries(target, prior, k - 1);
      if Occupied(prior.bins, k - 1) {
        DepositAdds(Spread(target, prior, k - 1), Bin2Value(prior, k - 1), Content(prior.bins, k - 1));
      }
    }
  }

  /** rescale(center, width) keeps exactly the content of the occupied bins; previous under/overflow is dropped. */
  lemma RescaleEntries(h: Histo, center: real, width: real)
    requires Proper(h) && width > 0.0
    ensures var g := RescaleTo(h, center, width);
            && Entries(g) == OccupiedSum(h.bins, h.n) && Proper(g) && g.n == h.n && g.autoscale == h.autoscale
            && g.min == center - width / 2.0 && g.max == center + width / 2.0
  {
    SpreadEntries(Emptied(h, center, width), h, h.n);
    SumEmpty(h.n);
  }

  // --------------------------------------------------------------------- fill

  /** The recursion of fill stops after one re-entry exactly when the range is positive and there is a bin. */
  lemma ReentryEnds(h: Histo, x: real)
    requires Reenters(h, x)
    ensures Reenters(RescaleTo(h, x, h.max - h.min), x) <==> h.max <= h.min || h.n <= 0
  {
    var range := h.max - h.min;
    if range > 0.0 {
      var g := RescaleTo(h, x, range);
      var e := Emptied(h, x, range);
      SumEmpty(h.n);
      if h.n >= 2 {
        SpreadEntries(e, h, h.n);
      }
      assert g.n == h.n && g.min == x - range / 2.0 && g.max == x + range / 2.0;
      var m := (h.n - 1) as real;
      assert (x - g.min) / (g.max - g.min) == 0.5 by {
        DivideBack(0.5, range);
        assert range / 2.0 == 0.5 * range;
      }
      assert Value2Bin(g, x) == Round(0.5 * m);
    }
  }

  /** The histogram after `k` re-entries of fill. */
  function Reentries(h: Histo, x: real, k: nat): Histo {
    if k == 0 then h else var g := Reentries(h, x, k - 1); RescaleTo(g, x, g.max - g.min)
  }

  lemma {:induction false} ReentersForever(h: Histo, x: real, k: nat)
    requires Reenters(h, x) && (h.max <= h.min || h.n <= 0)
    ensures var g := Reentries(h, x, k); Reenters(g, x) && (g.max <= g.min || g.n <= 0)
  {
    if k > 0 {
      ReentersForever(h, x, k - 1);
      ReentryEnds(Reentries(h, x, k - 1), x);
    }
  }

  /** The recursion of fill ends if and only if it does not start, or the range is positive and there is a bin. */
  lemma FillEnds(h: Histo, x: real)
    ensures (exists k: nat :: !Reenters(Reentries(h, x, k), x)) <==> !Reenters(h, x) || (h.min < h.max && h.n >= 1)
    ensures Reenters(h, x) && h.min < h.max && h.n >= 1 ==> !Reenters(Reentries(h, x, 1), x)
  {
    hide Reenters, RescaleTo;
    var none, one: nat := 0, 1;
    assert Reentries(h, x, none) == h;
    assert Reentries(h, x, one) == RescaleTo(h, x, h.max - h.min);
    if !Reenters(h, x) {
      assert !Reenters(Reentries(h, x, none), x);
    } else {
      ReentryEnds(h, x);
      if h.max <= h.min || h.n <= 0 {
        forall k: nat
          ensures Reenters(Reentries(h, x, k), x)
        {
          ReentersForever(h, x, k);
        }
      } else {
        assert !Reenters(Reentries(h, x, one), x);
      }
    }
  }

  /** What rescaling to a positive width keeps of the entries. */
  function CarriedOver(h: Histo): real {
    if h.n <= 1 then 0.0 else OccupiedSum(h.bins, h.n)
  }

  /** What a fill adds to getEntries, whenever its recursion ends. */
  lemma FillEntries(h: Histo, x: real, mult: real)
    requires KeysOk(h) && (Reenters(h, x) ==> h.min < h.max && h.n >= 1)
    ensures Entries(Fill(h, x, mult)) == mult + if Reenters(h, x) then CarriedOver(h) else Entries(h)
    ensures KeysOk(Fill(h, x, mult)) && (Proper(h) ==> Proper(Fill(h, x, mult)))
  {
    hide Deposit, KeysOk;
    if Reenters(h, x) {
      EmptiedEntries(h, x, h.max - h.min);
      if h.n > 1 {
        SpreadKeeps(h, x, h.max - h.min);
      }
      DepositAdds(RescaleTo(h, x, h.max - h.min), x, mult);
    } else {
      DepositAdds(h, x, mult);
    }
  }

  lemma EmptiedEntries(h: Histo, center: real, width: real)
    ensures Entries(Emptied(h, center, width)) == 0.0 && KeysOk(Emptied(h, center, width))
  {
    SumEmpty(h.n);
  }

  lemma SpreadKeeps(h: Histo, center: real, width: real)
    requires KeysOk(h) && h.n > 1 && h.min < h.max && width > 0.0
    ensures var g := RescaleTo(h, center, width);
            Entries(g) == OccupiedSum(h.bins, h.n) && KeysOk(g) && Proper(g)
  {
    RescaleEntries(h, center, width);
  }

  /** A fill raises getEntries by exactly its weight iff it does not re-enter on content that rescaling drops. */
  lemma FillExact(h: Histo, x: real, mult: real)
    requires KeysOk(h) && (Reenters(h, x) ==> h.min < h.max && h.n >= 1)
    ensures Entries(Fill(h, x, mult)) == Entries(h) + mult <==> (Reenters(h, x) ==> Entries(h) == CarriedOver(h))
    ensures Entries(h) >= 0.000001 || (h.bins == map[] && h.under == h.over == 0.0)
            ==> Entries(Fill(h, x, mult)) == Entries(h) + mult
  {
    FillEntries(h, x, mult);
    SumEmpty(h.n);
    OccupiedEmpty(h.n);
  }

  /** A small weight in the underflow is lost by the next fill outside the range. */
  lemma FillLosesUnderflow()
    ensures var h := Histo(2, 0.0, 1.0, true, 0.0000001, 0.0, map[]);
            Proper(h) && Reenters(h, 5.0) && Entries(Fill(h, 5.0, 1.0)) != Entries(h) + 1.0
  {
    var h := Histo(2, 0.0, 1.0, true, 0.0000001, 0.0, map[]);
    SumEmpty(2);
    OccupiedEmpty(2);
    assert Coord(h, 5.0) == 5.0;
    FillEntries(h, 5.0, 1.0);
  }

  lemma {:induction false} OccupiedEmpty(k: int)
    ensures OccupiedSum(map[], k) == 0.0
    decreases k
  {
    if k > 0 {
      OccupiedEmpty(k - 1);
    }
  }

  // ---------------------------------------------------------------- autoscale

  /** Sum of bin centre times content. */
  function Moment(h: Histo, bins: map<int, real>, k: int): real
    requires h.n != 1
    decreases k
  {
    if k <= 0 then 0.0 else Moment(h, bins, k - 1) + Bin2Value(h, k - 1) * Content(bins, k - 1)
  }

  function Mean(h: Histo): real
    requires h.n != 1
  {
    if Sum(h.bins, h.n) > 0.0 then Moment(h, h.bins, h.n) / Sum(h.bins, h.n) else 0.0
  }

  lemma {:induction false} MomentUpdate(h: Histo, bins: map<int, real>, b: int, c: real, k: int)
    requires 0 <= b && h.n != 1
    ensures Moment(h, bins[b := Content(bins, b) + c], k)
         == Moment(h, bins, k) + if b < k then Bin2Value(h, b) * c else 0.0
    decreases k
  {
    hide Bin2Value;
    if k > 0 {
      MomentUpdate(h, bins, b, c, k - 1);
    }
  }

  lemma {:induction false} MomentEmpty(h: Histo, k: int)
    requires h.n != 1
    ensures Moment(h, map[], k) == 0.0
    decreases k
  {
    if k > 0 {
      MomentEmpty(h, k - 1);
    }
  }

  /** The mean of content in a single bin is the centre of that bin. */
  lemma SingleBinMean(h: Histo, b: int, c: real)
    requires h.n != 1 && 0 <= b < h.n && c > 0.0 && h.bins == map[b := c]
    ensures Mean(h) == Bin2Value(h, b)
  {
    hide Bin2Value;
    var none: map<int, real> := map[];
    assert h.bins == none[b := Content(none, b) + c];
    SumEmpty(h.n);
    SumUpdate(none, b, c, h.n);
    MomentEmpty(h, h.n);
    MomentUpdate(h, none, b, c, h.n);
    DivideBack(Bin2Value(h, b), c);
  }

  lemma MomentSameRange(h: Histo, g: Histo, bins: map<int, real>, k: int)
    requires h.n != 1 && g.n == h.n && g.min == h.min && g.max == h.max
    ensures Moment(h, bins, k) == Moment(g, bins, k)
    decreases k
  {
  }

  /** Every occupied bin of `prior` has its centre inside the new window. */
  ghost predicate Fits(target: Histo, prior: Histo)
    requires prior.n != 1
  {
    forall b :: 0 <= b < prior.n && Occupied(prior.bins, b) ==> 0 <= Value2Bin(target, Bin2Value(prior, b)) < target.n
  }

  /** Half-way state of the redistribution: the bins of `g` carry what the bins of `prior` below `k` held. */
  ghost predicate Carried(target: Histo, prior: Histo, g: Histo, k: int)
    requires prior.n != 1 && target.n != 1
  {
    && g.under == g.over == 0.0 && Clean(g) && g == target.(bins := g.bins)
    && Sum(g.bins, g.n) == Sum(prior.bins, k) >= 0.0
    && MomentsClose(target, prior, g.bins, k)
  }

  ghost predicate MomentsClose(target: Histo, prior: Histo, bins: map<int, real>, k: int)
    requires prior.n != 1 && target.n != 1
  {
    2.0 * Abs(Moment(target, bins, target.n) - Moment(prior, prior.bins, k)) <= BinWidth(target) * Sum(prior.bins, k)
  }

  lemma {:induction false} SpreadFits(target: Histo, prior: Histo, k: nat)
    requires Proper(prior) && Clean(prior) && k <= prior.n
    requires Proper(target) && target.bins == map[] && target.under == target.over == 0.0 && target.n == prior.n
    requires Fits(target, prior)
    ensures Carried(target, prior, Spread(target, prior, k), k)
  {
    hide Bin2Value, Value2Bin;
    if k == 0 {
      SumEmpty(target.n);
      MomentEmpty(target, target.n);
      assert Moment(prior, prior.bins, 0) == 0.0 && Sum(prior.bins, 0) == 0.0;
    } else {
      hide Moment, Fits, Clean;
      SpreadFits(target, prior, k - 1);
      var g := Spread(target, prior, k - 1);
      if Occupied(prior.bins, k - 1) {
        DepositCarries(target, prior, g, k - 1);
      } else {
        EmptyBinCarries(target, prior, g, k - 1);
      }
    }
  }

  lemma EmptyBinCarries(target: Histo, prior: Histo, g: Histo, b: int)
    requires Clean(prior) && 0 <= b < prior.n && prior.n != 1 && target.n != 1
    requires !Occupied(prior.bins, b) && Carried(target, prior, g, b)
    ensures Carried(target, prior, g, b + 1)
  {
    hide Bin2Value, BinWidth;
    assert Content(prior.bins, b) == 0.0;
    assert Moment(prior, prior.bins, b + 1) == Moment(prior, prior.bins, b);
  }

  lemma CleanDeposit(g: Histo, bin: int, c: real)
    requires Clean(g) && 0 <= bin < g.n && c > EPSILON
    ensures Clean(g.(bins := g.bins[bin := Content(g.bins, bin) + c]))
  {
    var bins := g.bins[bin := Content(g.bins, bin) + c];
    forall b | 0 <= b < g.n
      ensures Content(bins, b) == 0.0 || Content(bins, b) > EPSILON
    {
      assert Content(g.bins, b) == 0.0 || Content(g.bins, b) > EPSILON;
    }
  }

  lemma SameWindow(h: Histo, g: Histo, v: real)
    requires g.n == h.n && g.min == h.min && g.max == h.max
    ensures Value2Bin(g, v) == Value2Bin(h, v)
  {
    assert h.max - h.min > 0.0 ==> Coord(g, v) == Coord(h, v);
  }

  lemma DepositCarries(target: Histo, prior: Histo, g: Histo, b: int)
    requires Proper(prior) && Clean(prior) && 0 <= b < prior.n
    requires Proper(target) && target.n == prior.n && Fits(target, prior)
    requires Occupied(prior.bins, b) && Carried(target, prior, g, b)
    ensures Carried(target, prior, Deposit(g, Bin2Value(prior, b), Content(prior.bins, b)), b + 1)
  {
    hide Bin2Value, Coord, Round, MomentsClose;
    var c, v := Content(prior.bins, b), Bin2Value(prior, b);
    var bin := Value2Bin(target, v);
    SameWindow(target, g, v);
    SumUpdate(g.bins, bin, c, g.n);
    assert Sum(prior.bins, b + 1) == Sum(prior.bins, b) + c;
    CleanDeposit(g, bin, c) by {
      assert c == 0.0 || c > EPSILON;
    }
    DepositMoment(target, prior, g.bins, b);
  }

  lemma DepositMoment(target: Histo, prior: Histo, bins: map<int, real>, b: int)
    requires Proper(prior) && 0 <= b < prior.n && Proper(target)
    requires Content(prior.bins, b) >= 0.0 && MomentsClose(target, prior, bins, b)
    requires 0 <= Value2Bin(target, Bin2Value(prior, b)) < target.n
    ensures var bin := Value2Bin(target, Bin2Value(prior, b));
            MomentsClose(target, prior, bins[bin := Content(bins, bin) + Content(prior.bins, b)], b + 1)
  {
    hide Bin2Value, Value2Bin, BinWidth, Abs, Content;
    var c, v := Content(prior.bins, b), Bin2Value(prior, b);
    var bin := Value2Bin(target, v);
    MomentUpdate(target, bins, bin, c, target.n);
    BinError(target, v);
    var bins' := bins[bin := Content(bins, bin) + c];
    MomentStep(Moment(target, bins, target.n), Moment(prior, prior.bins, b), Sum(prior.bins, b),
               Bin2Value(target, bin), v, c, BinWidth(target),
               Moment(target, bins', target.n), Moment(prior, prior.bins, b + 1), Sum(prior.bins, b + 1));
  }

  lemma MomentStep(a: real, b: real, s: real, v': real, v: real, c: real, w: real, a': real, b': real, s': real)
    requires c >= 0.0 && 2.0 * Abs(v' - v) <= w && 2.0 * Abs(a - b) <= w * s
    requires a' == a + v' * c && b' == b + v * c && s' == s + c
    ensures 2.0 * Abs(a' - b') <= w * s'
  {
    var d := v' - v;
    ScaleUp(2.0 * d, w, c);
    ScaleUp(-w, 2.0 * d, c);
    assert a' - b' == (a - b) + d * c;
    assert w * s' == w * s + w * c;
  }

  /** A window that covers the previous one fits every bin. */
  lemma WiderFits(target: Histo, prior: Histo)
    requires Proper(prior) && Proper(target) && target.n == prior.n
    requires target.min <= prior.min && prior.max <= target.max
    ensures Fits(target, prior)
  {
    hide Bin2Value, Value2Bin;
    forall b | 0 <= b < prior.n
      ensures 0 <= Value2Bin(target, Bin2Value(prior, b)) < target.n
    {
      BinInsideRange(prior, b);
      InsideFits(target, Bin2Value(prior, b));
    }
  }

  lemma InsideFits(h: Histo, v: real)
    requires Proper(h) && h.min <= v <= h.max
    ensures 0 <= Value2Bin(h, v) < h.n
  {
    hide Coord, Round;
    var range, m, t := h.max - h.min, (h.n - 1) as real, Coord(h, v);
    CoordEquation(h, v);
    ScaleUp(0.0, v - h.min, m);
    ScaleUp(v - h.min, range, m);
    AtMost(0.0, t, range, 0.0, (v - h.min) * m);
    AtMost(t, m, range, (v - h.min) * m, range * m);
    RoundInside(t, h.n);
  }

  lemma BinInsideRange(h: Histo, b: int)
    requires Proper(h) && 0 <= b < h.n
    ensures h.min <= Bin2Value(h, b) <= h.max
  {
    hide Bin2Value;
    var range, m := h.max - h.min, (h.n - 1) as real;
    BinEquation(h, b);
    ScaleUp(0.0, b as real, range);
    ScaleUp(b as real, m, range);
    AtMost(0.0, Bin2Value(h, b) - h.min, m, 0.0, range * b as real);
    AtMost(Bin2Value(h, b) - h.min, range, m, range * b as real, range * m);
  }

  lemma {:induction false} LowestIsLowest(h: Histo, from: nat, b: int)
    requires from <= b < h.n && Occupied(h.bins, b)
    ensures from <= LowestFrom(h, from) <= b && Occupied(h.bins, LowestFrom(h, from))
    decreases h.n - from
  {
    if !Occupied(h.bins, from) {
      LowestIsLowest(h, from + 1, b);
    }
  }

  lemma {:induction false} HighestIsHighest(h: Histo, below: nat, b: int)
    requires 0 <= b < below && Occupied(h.bins, b)
    ensures b <= HighestBelow(h, below) < below && Occupied(h.bins, HighestBelow(h, below))
  {
    if !Occupied(h.bins, below - 1) {
      HighestIsHighest(h, below - 1, b);
    }
  }

  /** Shrinking to 80% around fewer than 5% of the bins still fits them all. */
  lemma ShrunkFits(target: Histo, prior: Histo, lo: int, hi: int)
    requires Proper(prior) && Proper(target) && target.n == prior.n
    requires forall b :: 0 <= b < prior.n && Occupied(prior.bins, b) ==> lo <= b <= hi
    requires (hi - lo) as real / prior.n as real < 0.05
    requires var c := 0.5 * (Bin2Value(prior, hi) - Bin2Value(prior, lo)) + Bin2Value(prior, lo);
             target.min == c - 0.4 * (prior.max - prior.min) && target.max == c + 0.4 * (prior.max - prior.min)
    ensures Fits(target, prior)
  {
    hide Coord, Bin2Value, Round;
    Below(hi - lo, prior.n);
    forall b | 0 <= b < prior.n && Occupied(prior.bins, b)
      ensures 0 <= Value2Bin(target, Bin2Value(prior, b)) < target.n
    {
      assert lo <= b <= hi;
      ShrunkCoordinate(target, prior, b, lo, hi);
      RoundInside(Coord(target, Bin2Value(prior, b)), prior.n);
    }
  }

  lemma Below(width: int, n: int)
    requires n > 0 && width as real / n as real < 0.05
    ensures width as real < 0.05 * n as real
  {
    DivideBack(width as real, n as real);
    ScaleUpStrictly(width as real / n as real, 0.05, n as real);
  }

  lemma ShrunkCoordinate(target: Histo, prior: Histo, b: int, lo: int, hi: int)
    requires Proper(prior) && Proper(target) && target.n == prior.n
    requires target.max - target.min == 0.8 * (prior.max - prior.min)
    requires target.min == 0.5 * (Bin2Value(prior, hi) + Bin2Value(prior, lo)) - 0.4 * (prior.max - prior.min)
    ensures 0.8 * Coord(target, Bin2Value(prior, b)) == b as real - 0.5 * (lo + hi) as real + 0.4 * (prior.n - 1) as real
  {
    hide Coord, Bin2Value;
    var r, m := prior.max - prior.min, (prior.n - 1) as real;
    var v := Bin2Value(prior, b);
    BinEquation(prior, b);
    BinEquation(prior, lo);
    BinEquation(prior, hi);
    CoordEquation(target, v);
    var e := b as real - 0.5 * (lo + hi) as real + 0.4 * m;
    Combine(v - prior.min, Bin2Value(prior, lo) - prior.min, Bin2Value(prior, hi) - prior.min,
            b as real, lo as real, hi as real, r, m);
    var t := 0.8 * Coord(target, v);
    assert t * r == e * r;
    ScaleDown(t, e, r);
    ScaleDown(e, t, r);
  }

  lemma Combine(x: real, y: real, z: real, b: real, lo: real, hi: real, r: real, m: real)
    requires x * m == r * b && y * m == r * lo && z * m == r * hi
    ensures (x - 0.5 * (y + z) + 0.4 * r) * m == (b - 0.5 * (lo + hi) + 0.4 * m) * r
  {
  }

  lemma RescaleFits(h: Histo, center: real, width: real)
    requires Proper(h) && Clean(h) && width > 0.0
    requires Fits(Emptied(h, center, width), h)
    ensures Preserved(h, RescaleTo(h, center, width))
  {
    hide Bin2Value, Moment, Fits, BinWidth;
    var target := Emptied(h, center, width);
    SpreadFits(target, h, h.n);
    var g := RescaleTo(h, center, width);
    MomentSameRange(target, g, g.bins, g.n);
    RescaleEntries(h, center, width);
    SameWidth(target, g);
    MeanClose(Moment(g, g.bins, g.n), Moment(h, h.bins, h.n), Sum(h.bins, h.n), BinWidth(g));
  }

  lemma SameWidth(h: Histo, g: Histo)
    requires h.n == g.n != 1 && h.min == g.min && h.max == g.max
    ensures BinWidth(h) == BinWidth(g)
  {
  }

  lemma MeanClose(a: real, b: real, s: real, w: real)
    requires 2.0 * Abs(a - b) <= w * s
    ensures s > 0.0 ==> 2.0 * Abs(a / s - b / s) <= w
  {
    if s > 0.0 {
      var d := a / s - b / s;
      DivideBack(a, s);
      DivideBack(b, s);
      assert d * s == a - b;
      ScaleDown(2.0 * d, w, s);
      ScaleDown(-2.0 * d, w, s);
    }
  }

  /** No occupied bin was lost: same bin total, nothing outside, mean moved by at most half a new bin. */
  ghost predicate Preserved(h: Histo, g: Histo)
    requires h.n >= 2
  {
    && Proper(g) && Clean(g) && g.n == h.n
    && g.under == g.over == 0.0
    && Sum(g.bins, g.n) == Sum(h.bins, h.n)
    && (Sum(h.bins, h.n) > 0.0 ==> 2.0 * Abs(Mean(g) - Mean(h)) <= BinWidth(g))
  }

  /** rescale() either changes nothing or preserves all in-range content, in every branch. */
  lemma AutoscalePreserves(h: Histo)
    requires Proper(h) && Clean(h)
    ensures Autoscale(h) == h || Preserved(h, Autoscale(h))
    ensures Autoscale(h) != h ==> Autoscale(h).max - Autoscale(h).min != h.max - h.min
  {
    hide RescaleTo, Fits, Preserved, Bin2Value, Proper, Clean;
    var range := h.max - h.min;
    assert range > 0.0 by {
      ProperRange(h);
    }
    var entries := Entries(h) - (h.under + h.over);
    if !h.autoscale || Entries(h) < 3.0 {
    } else if h.under > 0.0 && h.over > 0.0 && h.under + h.over > 0.01 * entries {
      WideningPreserves(h, 0.5 * range + h.min, 1.1 * range);
    } else if h.under > 0.005 * entries {
      var newMin := h.max - range * 1.2;
      WideningPreserves(h, 0.5 * (newMin + h.max), h.max - newMin);
    } else if h.over > 0.005 * entries {
      var newMax := h.min + range * 1.2;
      WideningPreserves(h, 0.5 * (h.min + newMax), newMax - h.min);
    } else {
      ShrinkingPreserves(h);
    }
  }

  lemma ProperRange(h: Histo)
    requires Proper(h)
    ensures h.max - h.min > 0.0 && h.n >= 2
  {
  }

  lemma WideningPreserves(h: Histo, center: real, width: real)
    requires Proper(h) && Clean(h) && width > 0.0
    requires center - width / 2.0 <= h.min && h.max <= center + width / 2.0
    ensures Preserved(h, RescaleTo(h, center, width))
    ensures RescaleTo(h, center, width).max - RescaleTo(h, center, width).min == width
  {
    hide Preserved, RescaleTo;
    WiderFits(Emptied(h, center, width), h);
    RescaleFits(h, center, width);
    RescaleEntries(h, center, width);
  }

  lemma ShrinkingPreserves(h: Histo)
    requires Proper(h) && Clean(h)
    ensures var lo, hi := LowestFrom(h, 0), HighestBelow(h, h.n);
            var g := RescaleTo(h, 0.5 * (Bin2Value(h, hi) - Bin2Value(h, lo)) + Bin2Value(h, lo), 0.8 * (h.max - h.min));
            (hi - lo) as real / h.n as real < 0.05 ==> Preserved(h, g) && g.max - g.min == 0.8 * (h.max - h.min)
  {
    hide Preserved, RescaleTo, Bin2Value;
    var lo, hi := LowestFrom(h, 0), HighestBelow(h, h.n);
    var c, w := 0.5 * (Bin2Value(h, hi) - Bin2Value(h, lo)) + Bin2Value(h, lo), 0.8 * (h.max - h.min);
    if (hi - lo) as real / h.n as real < 0.05 {
      forall b | 0 <= b < h.n && Occupied(h.bins, b)
        ensures lo <= b <= hi
      {
        LowestIsLowest(h, 0, b);
        HighestIsHighest(h, h.n, b);
      }
      ShrunkFits(Emptied(h, c, w), h, lo, hi);
      RescaleFits(h, c, w);
      RescaleEntries(h, c, w);
    }
  }

  // ------------------------------------------------------- where the range goes

  /** Autoscaling is on and there is something to go by. */
  ghost predicate Active(h: Histo) {
    h.autoscale && h.under + Sum(h.bins, h.n) + h.over >= 3.0
  }

  /** Content on both sides, together above 1% of what is in range. */
  ghost predicate TooNarrow(h: Histo) {
    Active(h) && h.under > 0.0 && h.over > 0.0 && 100.0 * (h.under + h.over) > Sum(h.bins, h.n)
  }

  /** Otherwise, underflow above 0.5% of what is in range. */
  ghost predicate TooHigh(h: Histo) {
    Active(h) && !TooNarrow(h) && 200.0 * h.under > Sum(h.bins, h.n)
  }

  /** Otherwise, overflow above 0.5% of what is in range. */
  ghost predicate TooLow(h: Histo) {
    Active(h) && !TooNarrow(h) && !TooHigh(h) && 200.0 * h.over > Sum(h.bins, h.n)
  }

  /** `lo` and `hi` are the outermost occupied bins. */
  ghost predicate Outermost(h: Histo, lo: int, hi: int) {
    && 0 <= lo <= hi < h.n && Occupied(h.bins, lo) && Occupied(h.bins, hi)
    && forall b :: 0 <= b < h.n && Occupied(h.bins, b) ==> lo <= b <= hi
  }

  /** Otherwise, next to nothing outside, and more than 100 entries within less than 5% of the bins. */
  ghost predicate TooWide(h: Histo, lo: int, hi: int) {
    && Active(h) && !TooNarrow(h) && !TooHigh(h) && !TooLow(h)
    && h.under < 0.001 && h.over < 0.001 && Sum(h.bins, h.n) > 100.0
    && Outermost(h, lo, hi) && 20 * (hi - lo) < h.n
  }

  lemma {:induction false} ContentIsOccupied(h: Histo, k: int) returns (b: int)
    requires Clean(h) && k <= h.n && Sum(h.bins, k) > 0.0
    ensures 0 <= b < k && Occupied(h.bins, b)
    decreases k
  {
    if Occupied(h.bins, k - 1) {
      b := k - 1;
    } else {
      EpsilonPositive();
      b := ContentIsOccupied(h, k - 1);
    }
  }

  lemma OutermostFound(h: Histo, lo: int, hi: int)
    requires Outermost(h, lo, hi)
    ensures lo == LowestFrom(h, 0) && hi == HighestBelow(h, h.n)
  {
    LowestIsLowest(h, 0, lo);
    HighestIsHighest(h, h.n, hi);
    LowestIsLowest(h, 0, hi);
    HighestIsHighest(h, h.n, lo);
  }

  lemma FoundOutermost(h: Histo)
    requires Clean(h) && Sum(h.bins, h.n) > 0.0
    ensures Outermost(h, LowestFrom(h, 0), HighestBelow(h, h.n))
  {
    var b := ContentIsOccupied(h, h.n);
    LowestIsLowest(h, 0, b);
    HighestIsHighest(h, h.n, b);
    forall c | 0 <= c < h.n && Occupied(h.bins, c)
      ensures LowestFrom(h, 0) <= c <= HighestBelow(h, h.n)
    {
      LowestIsLowest(h, 0, c);
      HighestIsHighest(h, h.n, c);
    }
  }

  lemma TwentiethOf(width: int, n: int)
    requires n > 0
    ensures width as real / n as real < 0.05 <==> 20 * width < n
  {
    var q, m := width as real / n as real, n as real;
    assert q * m == width as real;
    if q < 0.05 {
      ScaleUpStrictly(q, 0.05, m);
    } else {
      ScaleUp(0.05, q, m);
    }
  }

  /** What rescale(center, width) makes of the range. */
  lemma RescaledRange(h: Histo, center: real, width: real)
    requires Proper(h) && width > 0.0
    ensures var g := RescaleTo(h, center, width); g.min == center - width / 2.0 && g.max == center + width / 2.0
  {
    RescaleEntries(h, center, width);
  }

  lemma ShrinksIff(h: Histo)
    requires Proper(h) && Clean(h)
    requires Active(h) && !TooNarrow(h) && !TooHigh(h) && !TooLow(h)
    requires h.under < 0.001 && h.over < 0.001 && Sum(h.bins, h.n) > 100.0
    ensures var lo, hi := LowestFrom(h, 0), HighestBelow(h, h.n);
            && ((hi - lo) as real / h.n as real < 0.05 <==> TooWide(h, lo, hi))
            && forall l, u :: TooWide(h, l, u) ==> l == lo && u == hi
  {
    hide Active, TooNarrow, TooHigh, TooLow, Outermost;
    var lo, hi := LowestFrom(h, 0), HighestBelow(h, h.n);
    FoundOutermost(h);
    TwentiethOf(hi - lo, h.n);
    forall l, u | TooWide(h, l, u)
      ensures l == lo && u == hi
    {
      OutermostFound(h, l, u);
    }
  }

  /** The new range, by the guards of the source. */
  lemma AutoscaleWindow(h: Histo)
    requires Proper(h) && Clean(h)
    ensures var g, r := Autoscale(h), h.max - h.min;
            var lo, hi := LowestFrom(h, 0), HighestBelow(h, h.n);
            if TooNarrow(h) then g.min == h.min - r / 20.0 && g.max == h.max + r / 20.0
            else if TooHigh(h) then g.min == h.min - r / 5.0 && g.max == h.max
            else if TooLow(h) then g.min == h.min && g.max == h.max + r / 5.0
            else if TooWide(h, lo, hi) then
              g.max - g.min == 0.8 * r && g.min + g.max == Bin2Value(h, lo) + Bin2Value(h, hi)
            else g == h && forall l, u :: !TooWide(h, l, u)
  {
    hide RescaleTo, Bin2Value, Clean, Proper, Outermost, LowestFrom, HighestBelow;
    var r := h.max - h.min;
    ProperRange(h);
    var lo, hi := LowestFrom(h, 0), HighestBelow(h, h.n);
    if TooNarrow(h) {
      RescaledRange(h, 0.5 * r + h.min, 1.1 * r);
    } else if TooHigh(h) {
      var newMin := h.max - r * 1.2;
      RescaledRange(h, 0.5 * (newMin + h.max), h.max - newMin);
    } else if TooLow(h) {
      var newMax := h.min + r * 1.2;
      RescaledRange(h, 0.5 * (h.min + newMax), newMax - h.min);
    } else if Active(h) && h.under < 0.001 && h.over < 0.001 && Sum(h.bins, h.n) > 100.0 {
      ShrinksIff(h);
      RescaledRange(h, 0.5 * (Bin2Value(h, hi) - Bin2Value(h, lo)) + Bin2Value(h, lo), 0.8 * r);
    }
  }

  /**
   * rescale() changes the range if and only if the histogram is too narrow, too high, too low or too wide for its
   * content: it widens both ends by 5%, lowers the minimum by 20%, raises the maximum by 20%, or shrinks to 80%
   * centred between the outermost occupied bins.
   */
  lemma AutoscaleRange(h: Histo)
    requires Proper(h) && Clean(h)
    ensures var g, r := Autoscale(h), h.max - h.min;
            && (TooNarrow(h) ==> g.min == h.min - r / 20.0 && g.max == h.max + r / 20.0)
            && (TooHigh(h) ==> g.min == h.min - r / 5.0 && g.max == h.max)
            && (TooLow(h) ==> g.min == h.min && g.max == h.max + r / 5.0)
            && (forall lo, hi :: TooWide(h, lo, hi) ==>
                  g.max - g.min == 0.8 * r && g.min + g.max == Bin2Value(h, lo) + Bin2Value(h, hi))
            && ((g.min, g.max) != (h.min, h.max) <==>
                  TooNarrow(h) || TooHigh(h) || TooLow(h) || exists lo, hi :: TooWide(h, lo, hi))
            && ((g.min, g.max) == (h.min, h.max) ==> g == h)
  {
    AutoscaleWindow(h);
    ProperRange(h);
    hide Autoscale, Bin2Value, Proper, Clean, TooNarrow, TooHigh, TooLow, LowestFrom, HighestBelow;
    forall lo, hi | TooWide(h, lo, hi)
      ensures lo == LowestFrom(h, 0) && hi == HighestBelow(h, h.n)
    {
      OutermostFound(h, lo, hi);
    }
  }

  // --------------------------------------------------------------- the object

  /** `Histogram`. Iterating the ordered map visits its keys in ascending order. */
  class Histogram {
    const nrBins: int
    var lower: real
    var upper: real
    var autoscale: bool
    var underflow: real
    var overflow: real
    var histogramMap: map<int, real>

    function State(): Histo
      reads this
    {
      Histo(nrBins, lower, upper, autoscale, underflow, overflow, histogramMap)
    }

    ghost predicate Valid()
      reads this
    {
      KeysOk(State())
    }

    constructor (n: int, min: real, max: real, autoscale: bool)
      ensures Valid() && State() == Histo(n, min, max, autoscale, 0.0, 0.0, map[])
    {
      nrBins, lower, upper, this.autoscale := n, min, max, autoscale;
      underflow, overflow, histogramMap := 0.0, 0.0, map[];
    }

    method GetEntries() returns (sum: real)
      requires Valid()
      ensures sum == Entries(State())
    {
      sum := underflow + overflow;
      var bin := 0;
      while bin < nrBins
        invariant bin == 0 || bin <= nrBins
        invariant sum == underflow + overflow + Sum(histogramMap, bin)
      {
        if bin in histogramMap {
          sum := sum + histogramMap[bin];
        }
        bin := bin + 1;
      }
    }

    method GetMean() returns (mean: real)
      requires Valid() && nrBins != 1
      ensures mean == Mean(State())
    {
      var sum, entries, bin := 0.0, 0.0, 0;
      while bin < nrBins
        invariant bin == 0 || bin <= nrBins
        invariant entries == Sum(histogramMap, bin)
        invariant sum == Moment(State(), histogramMap, bin)
      {
        if bin in histogramMap {
          entries := entries + histogramMap[bin];
          sum := sum + Bin2Value(State(), bin) * histogramMap[bin];
        }
        bin := bin + 1;
      }
      mean := if entries > 0.0 then sum / entries else 0.0;
    }

    method GetLowestOccupiedBin() returns (bin: int)
      requires Valid()
      ensures bin == LowestFrom(State(), 0)
    {
      if nrBins <= 0 {
        return -1;
      }
      for b := 0 to nrBins
        invariant LowestFrom(State(), 0) == LowestFrom(State(), b)
      {
        if b in histogramMap && Abs(histogramMap[b]) > EPSILON {
          return b;
        }
        EpsilonPositive();
      }
      return -1;
    }

    method GetHighestOccupiedBin() returns (bin: int)
      requires Valid()
      ensures bin == HighestBelow(State(), nrBins)
    {
      if nrBins <= 0 {
        return -1;
      }
      for b := nrBins downto 0
        invariant HighestBelow(State(), nrBins) == HighestBelow(State(), b)
      {
        if b in histogramMap && Abs(histogramMap[b]) > EPSILON {
          return b;
        }
        EpsilonPositive();
      }
      return -1;
    }

    /** The three-way booking shared by fill and rescale. */
    method Book(v: real, c: real)
      requires Valid()
      modifies this
      ensures State() == Deposit(old(State()), v, c) && Valid()
    {
      DepositAdds(State(), v, c);
      var bin := Value2Bin(State(), v);
      if bin < 0 {
        underflow := underflow + c;
      } else if bin >= nrBins {
        overflow := overflow + c;
      } else {
        histogramMap := histogramMap[bin := Content(histogramMap, bin) + c];
      }
    }

    method RescaleWindow(center: real, width: real)
      requires Valid()
      modifies this
      ensures Valid() && State() == RescaleTo(old(State()), center, width)
    {
      hide Deposit, Value2Bin, Bin2Value;
      if width <= 0.0 {
        return;
      }
      ghost var before := State();
      var oldMin, oldMax, oldMap := lower, upper, histogramMap;
      lower, upper := center - width / 2.0, center + width / 2.0;
      histogramMap, underflow, overflow := map[], 0.0, 0.0;
      var oldRange := oldMax - oldMin;
      if oldRange <= 0.0 || nrBins <= 1 {
        return;
      }
      ghost var emptied := State();
      for oldBin := 0 to nrBins
        invariant Valid() && State() == Spread(emptied, before, oldBin)
      {
        SpreadStep(emptied, before, oldBin, oldRange);
        if oldBin in oldMap && Abs(oldMap[oldBin]) > EPSILON {
          var value := oldRange * oldBin as real / (nrBins - 1) as real + oldMin;
          Book(value, oldMap[oldBin]);
        }
      }
    }

    /** fill, whenever its recursion ends; one re-entry is then enough. */
    method AddValue(x: real, mult: real)
      requires Valid() && (Reenters(State(), x) ==> lower < upper && nrBins >= 1)
      modifies this
      ensures Valid() && State() == Fill(old(State()), x, mult)
      decreases Reenters(State(), x)
    {
      var bin := Value2Bin(State(), x);
      var entries := GetEntries();
      if autoscale && entries < 0.000001 {
        if bin < 0 || bin >= nrBins {
          ReentryEnds(State(), x);
          RescaleWindow(x, upper - lower);
          AddValue(x, mult);
          return;
        }
      }
      Book(x, mult);
    }

    method Rescale()
      requires Valid() && nrBins != 1
      modifies this
      ensures Valid() && State() == Autoscale(old(State()))
    {
      if !autoscale {
        return;
      }
      var entries := GetEntries();
      if entries < 3.0 {
        return;
      }
      var ufl, ofl := underflow, overflow;
      entries := entries - (ufl + ofl);
      var range := upper - lower;
      var lowest := GetLowestOccupiedBin();
      var highest := GetHighestOccupiedBin();
      var lowestEntry, highestEntry := Bin2Value(State(), lowest), Bin2Value(State(), highest);
      if ufl > 0.0 && ofl > 0.0 && ufl + ofl > 0.01 * entries {
        RescaleWindow(0.5 * range + lower, 1.1 * range);
      } else if ufl > 0.005 * entries {
        var newMin := upper - range * 1.2;
        RescaleWindow(0.5 * (newMin + upper), upper - newMin);
      } else if ofl > 0.005 * entries {
        var newMax := lower + range * 1.2;
        RescaleWindow(0.5 * (lower + newMax), newMax - lower);
      } else if ufl < 0.001 && ofl < 0.001 {
        if entries > 100.0 && nrBins != 0 && (highest - lowest) as real / nrBins as real < 0.05 {
          RescaleWindow(0.5 * (highestEntry - lowestEntry) + lowestEntry, 0.8 * range);
        }
      }
    }
  }

  lemma SpreadStep(target: Histo, prior: Histo, k: nat, range: real)
    requires Proper(prior) && range == prior.max - prior.min
    ensures var g := Spread(target, prior, k);
            Spread(target, prior, k + 1) ==
              if k in prior.bins && Abs(prior.bins[k]) > EPSILON then
                Deposit(g, range * k as real / (prior.n - 1) as real + prior.min, prior.bins[k])
              else g
  {
    hide Deposit;
    EpsilonPositive();
    assert Occupied(prior.bins, k) <==> k in prior.bins && Abs(prior.bins[k]) > EPSILON;
    assert Bin2Value(prior, k) == range * k as real / (prior.n - 1) as real + prior.min;
  }

  lemma EpsilonPositive()
    ensures EPSILON > 0.0
  {
  }
}
