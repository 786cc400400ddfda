/** `KalmanGnssFilter` over reals: the recursion and the batch estimate it refines. */
module Kalman {
  datatype Axis = Lat | Lng | Alt

  /** One call of process(); `now` is the steady clock in nanoseconds. */
  datatype Fix = Fix(lat: real, lng: real, alt: real, accuracy: real, now: nat) {
    function At(a: Axis): real {
      match a case Lat => lat case Lng => lng case Alt => alt
    }
  }

  datatype Filter = Filter(lat: real, lng: real, alt: real, variance: real, timestamp: nat) {
    function At(a: Axis): real {
      match a case Lat => lat case Lng => lng case Alt => alt
    }
  }

  const MIN_ACCURACY := 1.0
  const RESET := Filter(0.0, 0.0, 0.0, -1.0, 0)

  /** The accuracy the filter works with, squared. */
  function Noise(accuracy: real): real {
    var a := if accuracy < MIN_ACCURACY then MIN_ACCURACY else accuracy;
    a * a
  }

  /** Whole milliseconds of a duration in nanoseconds, as an unsigned 32-bit integer. */
  function Millis(d: nat): nat {
    d / 1_000_000 % 0x1_0000_0000
  }

  /** The milliseconds since the stored timestamp. */
  function Increment(f: Filter, now: nat): nat {
    if now < f.timestamp then 0 else Millis(now - f.timestamp)
  }

  function Predicted(f: Filter, decay: real, now: nat): Filter {
    var ms := Increment(f, now);
    if ms > 0 then f.(variance := f.variance + Drift(ms, decay), timestamp := now) else f
  }

  function Gain(variance: real, noise: real): real
    requires variance + noise != 0.0
  {
    variance / (variance + noise)
  }

  function Blend(x: real, z: real, k: real): real {
    x + k * (z - x)
  }

  function Posterior(variance: real, k: real): real {
    (1.0 - k) * variance
  }

  /** What the elapsed time adds to the variance. */
  function Drift(ms: nat, decay: real): real {
    ms as real * decay * decay / 1000.0
  }

  lemma NoiseAtLeastOne(accuracy: real)
    ensures Noise(accuracy) >= 1.0
  {
  }

  lemma NoiseOf(accuracy: real)
    ensures Noise(accuracy) ==
            (if accuracy < MIN_ACCURACY then MIN_ACCURACY else accuracy) * (if accuracy < MIN_ACCURACY then MIN_ACCURACY else accuracy)
  {
  }

  lemma PredictedGrows(f: Filter, decay: real, now: nat)
    ensures Predicted(f, decay, now).variance >= f.variance
  {
    var ms := Increment(f, now) as real;
    assert decay * decay >= 0.0;
    assert ms * (decay * decay) >= 0.0;
    assert ms * decay * decay == ms * (decay * decay);
  }

  /** Uncertainty grows linearly in time, by the square of the decay for every second. */
  lemma DriftRate(a: nat, b: nat, decay: real)
    ensures Drift(a + b, decay) == Drift(a, decay) + Drift(b, decay)
    ensures Drift(1000, decay) == decay * decay
    ensures Drift(a, decay) == a as real * (decay * decay) / 1000.0
  {
    var q := decay * decay;
    assert (a + b) as real * decay * decay == (a + b) as real * q;
    assert a as real * decay * decay == a as real * q && b as real * decay * decay == b as real * q;
    assert (a + b) as real * q == a as real * q + b as real * q;
    assert 1000.0 * decay * decay == 1000.0 * q;
  }

  /** After `ms` whole milliseconds, within the range of the 32-bit counter, the prediction has drifted by just that. */
  lemma PredictionDrifts(f: Filter, decay: real, ms: nat, ns: nat)
    requires ms < 0x1_0000_0000 && ns < 1_000_000
    ensures var p := Predicted(f, decay, f.timestamp + 1_000_000 * ms + ns);
            && p.variance == f.variance + Drift(ms, decay)
            && p.timestamp == (if ms > 0 then f.timestamp + 1_000_000 * ms + ns else f.timestamp)
            && p.lat == f.lat && p.lng == f.lng && p.alt == f.alt
  {
    assert (1_000_000 * ms + ns) / 1_000_000 == ms;
    assert Increment(f, f.timestamp + 1_000_000 * ms + ns) == ms;
    assert Drift(0, decay) == 0.0;
  }

  function Process(f: Filter, decay: real, z: Fix): Filter {
    if f.variance < 0.0 then Filter(z.lat, z.lng, z.alt, Noise(z.accuracy), z.now)
    else
      var p := Predicted(f, decay, z.now);
      PredictedGrows(f, decay, z.now);
      NoiseAtLeastOne(z.accuracy);
      var k := Gain(p.variance, Noise(z.accuracy));
      Filter(Blend(p.lat, z.lat, k), Blend(p.lng, z.lng, k), Blend(p.alt, z.alt, k),
             Posterior(p.variance, k), p.timestamp)
  }

  /** The filter after all of `zs` since reset. */
  function Run(decay: real, zs: seq<Fix>): Filter {
    if zs == [] then RESET else Process(Run(decay, zs[..|zs| - 1]), decay, zs[|zs| - 1])
  }

  // ------------------------------------------------------------------- one step

  lemma FactorRange(k: real, s: real)
    requires s > 0.0
    ensures k <= 0.0 ==> k * s <= 0.0
    ensures k >= 1.0 ==> k * s >= s
  {
  }

  /** The update is a convex combination with weight k in (0, 1), and precisions add. */
  lemma UpdateFacts(v: real, r: real)
    requires v > 0.0 && r > 0.0
    ensures var k := Gain(v, r);
            && 0.0 < k < 1.0
            && k * (v + r) == v
            && 0.0 < Posterior(v, k) < r && Posterior(v, k) < v
            && 1.0 / Posterior(v, k) == 1.0 / v + 1.0 / r
  {
    var s := v + r;
    var k := Gain(v, r);
    assert k * s == v;
    FactorRange(k, s);
    var post := (1.0 - k) * v;
    assert post * s == r * v by {
      assert (1.0 - k) * s == r;
      assert post * s == ((1.0 - k) * s) * v;
    }
    assert 0.0 < post < v;
    assert post == k * r by {
      assert (k * r) * s == r * v;
      SameFactor(post, k * r, s);
    }
    assert post < r;
    Precisions(post, v, r);
  }

  lemma SameFactor(x: real, y: real, s: real)
    requires s > 0.0 && x * s == y * s
    ensures x == y
  {
  }

  lemma Precisions(post: real, v: real, r: real)
    requires v > 0.0 && r > 0.0 && post > 0.0
    requires post * (v + r) == r * v
    ensures 1.0 / post == 1.0 / v + 1.0 / r
  {
    var a, b, c := 1.0 / post, 1.0 / v, 1.0 / r;
    assert a * post == 1.0 && b * v == 1.0 && c * r == 1.0;
    var rv := r * v;
    assert rv > 0.0;
    assert (b + c) * rv == v + r by {
      assert b * rv == (b * v) * r && c * rv == (c * r) * v;
    }
    assert a * rv == v + r by {
      assert a * rv == a * (post * (v + r)) == (a * post) * (v + r);
    }
    SameFactor(a, b + c, rv);
  }

  /** The gain is the best one: no other linear blend of prediction and measurement has a smaller variance. */
  lemma GainOptimal(v: real, r: real, k: real)
    requires v > 0.0 && r > 0.0
    ensures Posterior(v, Gain(v, r)) <= (1.0 - k) * (1.0 - k) * v + k * k * r
  {
    var g := Gain(v, r);
    UpdateFacts(v, r);
    var d := k - g;
    var s := v + r;
    assert d * d >= 0.0;
    assert (d * d) * s >= 0.0;
    assert (1.0 - k) * (1.0 - k) * v + k * k * r == v - 2.0 * (k * v) + (k * k) * s;
    assert k == g + d;
    assert (k * k) * s == (g * s) * g + 2.0 * (g * s) * d + (d * d) * s;
  }

  // --------------------------------------------------------------- any elapsed times

  ghost predicate Between(zs: seq<Fix>, a: Axis, lo: real, hi: real) {
    forall i :: 0 <= i < |zs| ==> lo <= zs[i].At(a) <= hi
  }

  lemma BlendInside(x: real, z: real, k: real, lo: real, hi: real)
    requires 0.0 <= k <= 1.0 && lo <= x <= hi && lo <= z <= hi
    ensures lo <= Blend(x, z, k) <= hi
  {
    NonNegative(1.0 - k, x - lo);
    NonNegative(1.0 - k, hi - x);
    NonNegative(k, z - lo);
    NonNegative(k, hi - z);
    assert Blend(x, z, k) - lo == (1.0 - k) * (x - lo) + k * (z - lo);
    assert hi - Blend(x, z, k) == (1.0 - k) * (hi - x) + k * (hi - z);
  }

  lemma NonNegative(x: real, y: real)
    requires x >= 0.0 && y >= 0.0
    ensures x * y >= 0.0
  {
  }

  lemma ProcessAt(f: Filter, decay: real, z: Fix, a: Axis)
    requires f.variance > 0.0
    ensures var p, r := Predicted(f, decay, z.now), Noise(z.accuracy);
            && p.variance >= f.variance && r >= 1.0 && p.At(a) == f.At(a)
            && Process(f, decay, z).At(a) == Blend(f.At(a), z.At(a), Gain(p.variance, r))
            && Process(f, decay, z).variance == Posterior(p.variance, Gain(p.variance, r))
  {
    hide Gain, Noise, Blend, Posterior, Increment;
    PredictedGrows(f, decay, z.now);
    NoiseAtLeastOne(z.accuracy);
  }

  /** The estimate stays in the hull of the measurements and is at least as certain as the last of them. */
  lemma {:induction false} HullAndVariance(decay: real, zs: seq<Fix>, a: Axis, lo: real, hi: real)
    requires zs != [] && Between(zs, a, lo, hi)
    ensures var f := Run(decay, zs);
            && lo <= f.At(a) <= hi
            && 0.0 < f.variance <= Noise(zs[|zs| - 1].accuracy)
  {
    hide Predicted, Gain, Noise, Blend, Posterior;
    var n := |zs| - 1;
    var z := zs[n];
    NoiseAtLeastOne(z.accuracy);
    assert lo <= z.At(a) <= hi;
    if n > 0 {
      var prior := zs[..n];
      HullAndVariance(decay, prior, a, lo, hi);
      hide Process;
      var f := Run(decay, prior);
      ProcessAt(f, decay, z, a);
      var v := Predicted(f, decay, z.now).variance;
      UpdateFacts(v, Noise(z.accuracy));
      BlendInside(f.At(a), z.At(a), Gain(v, Noise(z.accuracy)), lo, hi);
    }
  }

  // ----------------------------------------------------------------- no elapsed time

  /** Sum of the inverse variances of the measurements. */
  function Precision(zs: seq<Fix>): real {
    if zs == [] then 0.0
    else
      NoiseAtLeastOne(zs[|zs| - 1].accuracy);
      Precision(zs[..|zs| - 1]) + 1.0 / Noise(zs[|zs| - 1].accuracy)
  }

  /** Measurements weighted by their inverse variances. */
  function Weighted(zs: seq<Fix>, a: Axis): real {
    if zs == [] then 0.0
    else
      NoiseAtLeastOne(zs[|zs| - 1].accuracy);
      Weighted(zs[..|zs| - 1], a) + zs[|zs| - 1].At(a) / Noise(zs[|zs| - 1].accuracy)
  }

  /** No measurement came a whole millisecond after the stored time stamp. */
  ghost predicate Instant(decay: real, zs: seq<Fix>) {
    forall i :: 0 < i < |zs| ==> Increment(Run(decay, zs[..i]), zs[i].now) == 0
  }

  /** Without elapsed time the filter is the inverse-variance-weighted mean of everything since reset. */
  lemma {:induction false} RecursionIsBatch(decay: real, zs: seq<Fix>, a: Axis)
    requires zs != [] && Instant(decay, zs)
    ensures var f := Run(decay, zs);
            && f.variance > 0.0
            && 1.0 / f.variance == Precision(zs) > 0.0
            && f.At(a) == Weighted(zs, a) / Precision(zs)
  {
    hide Gain, Noise, Increment, Blend, Posterior, Process;
    var n := |zs| - 1;
    var prior, z, r := zs[..n], zs[n], Noise(zs[n].accuracy);
    NoiseAtLeastOne(z.accuracy);
    if n == 0 {
      OneFix(decay, zs, a);
    } else {
      assert Instant(decay, prior) by {
        forall i | 0 < i < n
          ensures Increment(Run(decay, prior[..i]), prior[i].now) == 0
        {
          assert prior[..i] == zs[..i];
        }
      }
      RecursionIsBatch(decay, prior, a);
      var f := Run(decay, prior);
      assert Increment(Run(decay, zs[..n]), zs[n].now) == 0;
      assert Predicted(f, decay, z.now) == f;
      ProcessAt(f, decay, z, a);
      UpdateFacts(f.variance, r);
      BatchStep(f.At(a), z.At(a), f.variance, r, Gain(f.variance, r), Weighted(prior, a), Precision(prior));
    }
  }

  lemma OneFix(decay: real, zs: seq<Fix>, a: Axis)
    requires |zs| == 1
    ensures var f := Run(decay, zs);
            && f.variance > 0.0
            && 1.0 / f.variance == Precision(zs) > 0.0
            && f.At(a) == Weighted(zs, a) / Precision(zs)
  {
    hide Noise, Increment;
    NoiseAtLeastOne(zs[0].accuracy);
    assert Run(decay, zs[..0]) == RESET;
    assert Precision(zs[..0]) == 0.0 && Weighted(zs[..0], a) == 0.0;
    FirstFix(zs[0].At(a), Noise(zs[0].accuracy));
  }

  lemma FirstFix(z: real, r: real)
    requires r > 0.0
    ensures z == (z / r) / (1.0 / r) && 1.0 / r > 0.0
  {
    var p := 1.0 / r;
    assert p * r == 1.0;
    assert z / r == z * p;
    assert (z * p) / p == z;
  }

  lemma BatchStep(x: real, z: real, v: real, r: real, k: real, w: real, p: real)
    requires v > 0.0 && r > 0.0 && k * (v + r) == v
    requires 1.0 / v == p > 0.0 && x == w / p
    ensures p + 1.0 / r > 0.0
    ensures Blend(x, z, k) == (w + z / r) / (p + 1.0 / r)
  {
    var q := 1.0 / r;
    assert q * r == 1.0 && p * v == 1.0 && x * p == w && z / r == z * q;
    var t := p + q;
    assert t > 0.0;
    // k * t == q, because k * (v + r) == v and t == (v + r) * p * q
    assert t == (v + r) * (p * q) by {
      assert (v + r) * (p * q) == (v * p) * q + (r * q) * p;
    }
    assert k * t == q by {
      assert k * t == (k * (v + r)) * (p * q) == v * (p * q) == (p * v) * q;
    }
    var y := x + k * (z - x);
    assert y * t == x * t + (k * t) * (z - x) == x * t + q * (z - x) == x * p + z * q == w + z / r;
    assert (y * t) / t == y;
  }

  // --------------------------------------------------------------------- the object

  /** Without an estimate the first measurement is taken over as it is, at its time and with its clamped accuracy. */
  lemma FirstFixTaken(f: Filter, decay: real, z: Fix, a: Axis)
    requires f.variance < 0.0
    ensures var g := Process(f, decay, z); g.At(a) == z.At(a) && g.timestamp == z.now
    ensures z.accuracy >= MIN_ACCURACY ==> Process(f, decay, z).variance == z.accuracy * z.accuracy
    ensures z.accuracy <= MIN_ACCURACY ==> Process(f, decay, z).variance == 1.0
  {
  }

  /**
   * One step, whatever time has passed: prediction and measurement are weighted by their inverse variances, where
   * the prediction's variance includes the drift, and these precisions add.
   */
  lemma StepWeighted(f: Filter, decay: real, z: Fix, a: Axis)
    requires f.variance > 0.0
    ensures var v, r, g := Predicted(f, decay, z.now).variance, Noise(z.accuracy), Process(f, decay, z);
            && v > 0.0 && r > 0.0 && g.variance > 0.0
            && 1.0 / g.variance == 1.0 / v + 1.0 / r
            && g.At(a) == (f.At(a) / v + z.At(a) / r) / (1.0 / v + 1.0 / r)
            && g.timestamp == Predicted(f, decay, z.now).timestamp
  {
    hide Gain, Noise, Blend, Posterior, Drift, Increment;
    var v, r := Predicted(f, decay, z.now).variance, Noise(z.accuracy);
    ProcessAt(f, decay, z, a);
    UpdateFacts(v, r);
    WeightedForm(f.At(a), v);
    BatchStep(f.At(a), z.At(a), v, r, Gain(v, r), f.At(a) / v, 1.0 / v);
  }

  lemma WeightedForm(x: real, v: real)
    requires v > 0.0
    ensures 1.0 / v > 0.0 && x == (x / v) / (1.0 / v)
  {
    FirstFix(x, v);
  }

  class KalmanGnssFilter {
    const accuracyDecay: real
    var lat: real
    var lng: real
    var alt: real
    var variance: real
    var timestamp: nat

    ghost function State(): Filter
      reads this
    {
      Filter(lat, lng, alt, variance, timestamp)
    }

    constructor (decay: real)
      ensures accuracyDecay == decay && State() == RESET
    {
      accuracyDecay, lat, lng, alt, variance, timestamp := decay, 0.0, 0.0, 0.0, -1.0, 0;
    }

    method Reset()
      modifies this`lat, this`lng, this`alt, this`variance
      ensures State() == RESET.(timestamp := timestamp)
    {
      lat, lng, alt, variance := 0.0, 0.0, 0.0, -1.0;
    }

    method SetState(lat: real, lng: real, alt: real, accuracy: real, now: nat)
      modifies this
      ensures State() == Filter(lat, lng, alt, accuracy * accuracy, now)
    {
      this.lat, this.lng, this.alt, variance, timestamp := lat, lng, alt, accuracy * accuracy, now;
    }

    /** process() */
    method AddFix(z: Fix)
      requires timestamp <= z.now
      modifies this
      ensures State() == Process(old(State()), accuracyDecay, z)
    {
      hide Blend, Posterior, Drift, Noise, Gain, Millis;
      var accuracy := if z.accuracy < MIN_ACCURACY then MIN_ACCURACY else z.accuracy;
      var noise := accuracy * accuracy;
      NoiseOf(z.accuracy);
      NoiseAtLeastOne(z.accuracy);
      assert noise == Noise(z.accuracy);
      ghost var before := State();
      if variance < 0.0 {
        SetState(z.lat, z.lng, z.alt, accuracy, z.now);
        return;
      }
      PredictedGrows(State(), accuracyDecay, z.now);
      var ms := Millis(z.now - timestamp);
      if ms > 0 {
        variance := variance + Drift(ms, accuracyDecay);
        timestamp := z.now;
      }
      assert State() == Predicted(before, accuracyDecay, z.now);
      var k := Gain(variance, noise);
      lat := Blend(lat, z.lat, k);
      lng := Blend(lng, z.lng, k);
      alt := Blend(alt, z.alt, k);
      variance := Posterior(variance, k);
    }
  }
}
