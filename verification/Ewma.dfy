/** The exponentially weighted moving average detector, over the reals: its incremental update
    is proved to compute the weighted mean and variance of the whole history. */
module Ewma {
  import opened Verdicts

  datatype Estimate = Estimate(alpha: real, threshold: real, warmup: nat, samples: nat, initialized: bool,
                               mean: real, variance: real)

  const MIN_ALPHA := 0.001

  /** The least number of samples that, times alpha, is at least 3. */
  function Warmup(alpha: real): (n: nat)
    ensures var a := if alpha > MIN_ALPHA then alpha else MIN_ALPHA;
            3.0 <= n as real * a && n as real * a < 3.0 + a
  {
    var a := if alpha > MIN_ALPHA then alpha else MIN_ALPHA;
    var q := 3.0 / a;
    var n := -(-q).Floor;
    Quotient(3.0, a);
    Ceiling(q, n);
    CeilingTimes(q, n as real, a, 3.0);
    n
  }

  lemma Quotient(x: real, a: real)
    requires a != 0.0
    ensures (x / a) * a == x
  {}

  lemma Ceiling(q: real, n: int)
    requires n == -(-q).Floor
    ensures q <= n as real < q + 1.0
  {}

  lemma CeilingTimes(q: real, r: real, a: real, x: real)
    requires q <= r < q + 1.0 && a > 0.0 && q * a == x
    ensures x <= r * a < x + a
  {
    var e := r - q;
    var p := e * a;
    assert 0.0 <= p;
    assert (1.0 - e) * a > 0.0;
    assert p < a;
    assert r * a == x + p;
  }

  lemma Scale(x: real, y: real, a: real)
    requires x <= y && a >= 0.0
    ensures x * a <= y * a
  {}

  function Init(alpha: real, threshold: real): Estimate {
    Estimate(alpha, threshold, Warmup(alpha), 0, false, 0.0, 0.0)
  }

  function Judged(s: Estimate, value: real): Verdict {
    if s.initialized && s.variance > VARIANCE_FLOOR && s.samples >= s.warmup
    then Deviation(value - s.mean, s.variance, s.threshold) else QUIET
  }

  function Observed(s: Estimate, value: real): Estimate {
    var d := value - s.mean;
    if s.initialized then
      s.(mean := s.mean + s.alpha * d, variance := (1.0 - s.alpha) * (s.variance + s.alpha * d * d),
         samples := s.samples + 1)
    else s.(mean := value, variance := 0.0, initialized := true, samples := s.samples + 1)
  }

  /** The detector object. */
  class EwmaDetector {
    const alpha: real
    const threshold: real
    const warmup: nat
    var samples: nat
    var initialized: bool
    var mean: real
    var variance: real

    function State(): Estimate
      reads this
    {
      Estimate(alpha, threshold, warmup, samples, initialized, mean, variance)
    }

    constructor (alpha: real, threshold: real)
      ensures State() == Init(alpha, threshold)
    {
      this.alpha, this.threshold, warmup := alpha, threshold, Warmup(alpha);
      samples, initialized, mean, variance := 0, false, 0.0, 0.0;
    }

    method Observe(value: real) returns (verdict: Verdict)
      modifies this
      ensures State() == Observed(old(State()), value) && verdict == Judged(old(State()), value)
    {
      verdict := QUIET;
      if initialized {
        var deviation := value - mean;
        if variance > VARIANCE_FLOOR && samples >= warmup {
          verdict := Deviation(deviation, variance, threshold);
        }
        mean := mean + alpha * deviation;
        variance := (1.0 - alpha) * (variance + alpha * deviation * deviation);
      } else {
        mean := value;
        variance := 0.0;
        initialized := true;
      }
      samples := samples + 1;
    }
  }

  // ---------------------------------------------------------------------
  // The weighted mean and variance of a history
  // ---------------------------------------------------------------------

  function Power(base: real, n: nat): real { if n == 0 then 1.0 else base * Power(base, n - 1) }

  /** The weight of sample i among n: alpha for the newest, decaying by 1 - alpha for each step
      into the past; the oldest carries all the weight that is left. */
  function Weight(alpha: real, n: nat, i: nat): real
    requires i < n
  {
    if i == 0 then Power(1.0 - alpha, n - 1) else alpha * Power(1.0 - alpha, n - 1 - i)
  }

  /** The weighted sum of the first k of the values. */
  function WeightedSum(alpha: real, values: seq<real>, k: nat): real
    requires k <= |values|
  {
    if k == 0 then 0.0 else WeightedSum(alpha, values, k - 1) + Weight(alpha, |values|, k - 1) * values[k - 1]
  }

  function WeightedMean(alpha: real, values: seq<real>): real { WeightedSum(alpha, values, |values|) }

  function Square(x: real): real { x * x }

  function SquaredDeviations(values: seq<real>, centre: real): (d: seq<real>)
    ensures |d| == |values|
  {
    seq(|values|, i requires 0 <= i < |values| => Square(values[i] - centre))
  }

  /** The weighted mean of the squared deviations from the weighted mean. */
  function WeightedVariance(alpha: real, values: seq<real>): real {
    SquaresAbout(alpha, values, WeightedMean(alpha, values))
  }

  function After(s: Estimate, values: seq<real>): Estimate {
    if values == [] then s else Observed(After(s, values[..|values| - 1]), values[|values| - 1])
  }

  // ---------------------------------------------------------------------
  // One more sample
  // ---------------------------------------------------------------------

  lemma DecayStep(b: real, sum: real, w: real, x: real)
    ensures b * sum + (b * w) * x == b * (sum + w * x)
  {}

  lemma DecayedWeight(alpha: real, n: nat, i: nat)
    requires i < n
    ensures Weight(alpha, n + 1, i) == (1.0 - alpha) * Weight(alpha, n, i)
  {
    var b := 1.0 - alpha;
    if i > 0 {
      var p := Power(b, n - 1 - i);
      assert Weight(alpha, n + 1, i) == alpha * (b * p) == b * (alpha * p);
    }
  }

  lemma {:induction false} DecayedSum(alpha: real, values: seq<real>, v: real, k: nat)
    requires k <= |values|
    ensures WeightedSum(alpha, values + [v], k) == (1.0 - alpha) * WeightedSum(alpha, values, k)
  {
    hide Weight;
    if k > 0 {
      var n, i, b := |values|, k - 1, 1.0 - alpha;
      DecayedSum(alpha, values, v, i);
      DecayedWeight(alpha, n, i);
      DecayStep(b, WeightedSum(alpha, values, i), Weight(alpha, n, i), values[i]);
    }
  }

  /** A new sample takes weight alpha and shrinks the others' by 1 - alpha. */
  lemma OneMore(alpha: real, values: seq<real>, v: real)
    requires values != []
    ensures WeightedMean(alpha, values + [v]) == (1.0 - alpha) * WeightedMean(alpha, values) + alpha * v
  {
    DecayedSum(alpha, values, v, |values|);
    assert Weight(alpha, |values| + 1, |values|) == alpha * Power(1.0 - alpha, 0);
  }

  lemma One(alpha: real, v: real)
    ensures WeightedMean(alpha, [v]) == v
  {
    assert Weight(alpha, 1, 0) == Power(1.0 - alpha, 0) == 1.0;
    assert WeightedSum(alpha, [v], 1) == WeightedSum(alpha, [v], 0) + Weight(alpha, 1, 0) * v;
  }

  lemma SquaresPush(values: seq<real>, v: real, centre: real)
    ensures SquaredDeviations(values + [v], centre)
         == SquaredDeviations(values, centre) + [Square(v - centre)]
  {
    hide Square;
  }

  /** (v - c)^2 = v^2 - 2cv + c^2, carried through one step of a weighted mean. */
  lemma ShiftStep(a: real, s0: real, m: real, c: real, v: real)
    ensures (1.0 - a) * (s0 - 2.0 * c * m + c * c) + a * Square(v - c)
         == ((1.0 - a) * s0 + a * Square(v - 0.0)) - 2.0 * c * ((1.0 - a) * m + a * v) + c * c
  {
    var b, cc, cm, cv := 1.0 - a, c * c, c * m, c * v;
    assert Square(v - c) == v * v - 2.0 * cv + cc;
    assert a * (v * v - 2.0 * cv + cc) == a * (v * v) - 2.0 * (a * cv) + a * cc;
    assert b * (s0 - 2.0 * cm + cc) == b * s0 - 2.0 * (b * cm) + b * cc;
    assert b * cc + a * cc == cc;
    assert c * (b * m + a * v) == c * (b * m) + c * (a * v) == b * cm + a * cv;
  }

  lemma ShiftOne(c: real, v: real)
    ensures Square(v - c) == Square(v - 0.0) - 2.0 * c * v + c * c
  {}

  function SquaresAbout(alpha: real, values: seq<real>, c: real): real {
    WeightedMean(alpha, SquaredDeviations(values, c))
  }

  lemma SquaresAboutOneMore(alpha: real, values: seq<real>, v: real, c: real)
    ensures SquaresAbout(alpha, values + [v], c)
         == if values == [] then Square(v - c)
            else (1.0 - alpha) * SquaresAbout(alpha, values, c) + alpha * Square(v - c)
  {
    hide WeightedMean, Square;
    SquaresPush(values, v, c);
    if values == [] {
      assert SquaredDeviations(values, c) + [Square(v - c)] == [Square(v - c)];
      One(alpha, Square(v - c));
    } else {
      OneMore(alpha, SquaredDeviations(values, c), Square(v - c));
    }
  }

  /** The weighted squared deviations about any centre, from those about zero. */
  lemma {:induction false} ShiftedSquares(alpha: real, values: seq<real>, c: real)
    requires values != []
    ensures SquaresAbout(alpha, values, c)
         == SquaresAbout(alpha, values, 0.0) - 2.0 * c * WeightedMean(alpha, values) + c * c
  {
    hide WeightedMean, SquaresAbout, Square;
    var init, v := values[..|values| - 1], values[|values| - 1];
    assert values == init + [v];
    SquaresAboutOneMore(alpha, init, v, c);
    SquaresAboutOneMore(alpha, init, v, 0.0);
    if init == [] {
      assert values == [v];
      One(alpha, v);
      ShiftOne(c, v);
    } else {
      ShiftedSquares(alpha, init, c);
      OneMore(alpha, init, v);
      ShiftStep(alpha, SquaresAbout(alpha, init, 0.0), WeightedMean(alpha, init), c, v);
    }
  }

  /** The algebra of the incremental variance. */
  lemma VarianceStep(a: real, s0: real, m: real, d: real, n: real)
    requires n == m + a * d
    ensures (1.0 - a) * (s0 - 2.0 * n * m + n * n) + a * Square(m + d - n)
         == (1.0 - a) * ((s0 - 2.0 * m * m + m * m) + a * d * d)
  {
    var b, v, e := 1.0 - a, s0 - m * m, a * d;
    assert s0 - 2.0 * n * m + n * n == v + e * e by {
      assert n * n == m * m + 2.0 * (m * e) + e * e;
      assert n * m == m * m + m * e;
    }
    assert m + d - n == b * d;
    assert a * Square(b * d) == b * (e * (b * d)) by {
      assert (b * d) * (b * d) == b * (d * (b * d));
      assert a * (b * (d * (b * d))) == b * ((a * d) * (b * d));
    }
    assert e * e + e * (b * d) == e * (e + b * d) == e * d;
    assert b * (v + e * e) + b * (e * (b * d)) == b * (v + (e * e + e * (b * d)));
  }

  lemma VarianceOfShifted(a: real, s0: real, m: real, d: real, n: real, sn: real, sm: real)
    requires n == m + a * d && sn == s0 - 2.0 * n * m + n * n && sm == s0 - 2.0 * m * m + m * m
    ensures (1.0 - a) * sn + a * Square(m + d - n) == (1.0 - a) * (sm + a * d * d)
  {
    VarianceStep(a, s0, m, d, n);
  }

  lemma MeanStep(a: real, m: real, v: real, d: real, n: real)
    requires d == v - m && n == m + a * d
    ensures (1.0 - a) * m + a * v == n && m + d - n == v - n
  {}

  function NewMean(a: real, m: real, v: real): real { m + a * (v - m) }

  function NewVariance(a: real, m: real, w: real, v: real): real { (1.0 - a) * (w + a * (v - m) * (v - m)) }

  /** Mean and variance of a longer history, from those of the shorter. */
  lemma VariancePush(alpha: real, values: seq<real>, v: real)
    requires values != []
    ensures WeightedMean(alpha, values + [v]) == NewMean(alpha, WeightedMean(alpha, values), v)
    ensures WeightedVariance(alpha, values + [v])
         == NewVariance(alpha, WeightedMean(alpha, values), WeightedVariance(alpha, values), v)
  {
    hide WeightedMean, SquaresAbout, Square;
    var m := WeightedMean(alpha, values);
    var d := v - m;
    var n := m + alpha * d;
    OneMore(alpha, values, v);
    MeanStep(alpha, m, v, d, n);
    ShiftedSquares(alpha, values, n);
    ShiftedSquares(alpha, values, m);
    SquaresAboutOneMore(alpha, values, v, n);
    VarianceOfShifted(alpha, SquaresAbout(alpha, values, 0.0), m, d, n,
                      SquaresAbout(alpha, values, n), SquaresAbout(alpha, values, m));
  }

  lemma VarianceOfOne(alpha: real, v: real)
    ensures WeightedVariance(alpha, [v]) == 0.0
  {
    One(alpha, v);
    SquaresAboutOneMore(alpha, [], v, v);
    assert [] + [v] == [v];
  }

  // ---------------------------------------------------------------------
  // Main results
  // ---------------------------------------------------------------------

  lemma ObservedLater(alpha: real, threshold: real, warmup: nat, samples: nat, m: real, w: real, v: real)
    ensures Observed(Estimate(alpha, threshold, warmup, samples, true, m, w), v)
         == Estimate(alpha, threshold, warmup, samples + 1, true, NewMean(alpha, m, v), NewVariance(alpha, m, w, v))
  {}

  /** What the detector should hold after a history. */
  function Expected(alpha: real, threshold: real, values: seq<real>): Estimate {
    if values == [] then Init(alpha, threshold)
    else Estimate(alpha, threshold, Warmup(alpha), |values|, true,
                  WeightedMean(alpha, values), WeightedVariance(alpha, values))
  }

  lemma ExpectedPush(alpha: real, threshold: real, values: seq<real>, v: real)
    ensures Observed(Expected(alpha, threshold, values), v) == Expected(alpha, threshold, values + [v])
  {
    if values == [] {
      assert values + [v] == [v];
      VarianceOfOne(alpha, v);
      One(alpha, v);
    } else {
      hide WeightedMean, WeightedVariance, Warmup, Observed, NewMean, NewVariance;
      ObservedLater(alpha, threshold, Warmup(alpha), |values|, WeightedMean(alpha, values),
                    WeightedVariance(alpha, values), v);
      VariancePush(alpha, values, v);
    }
  }

  /** After any history the running mean and variance are the weighted ones. */
  lemma {:induction false} RunningIsWeighted(alpha: real, threshold: real, values: seq<real>)
    ensures After(Init(alpha, threshold), values) == Expected(alpha, threshold, values)
  {
    if values != [] {
      var init, v := values[..|values| - 1], values[|values| - 1];
      assert values == init + [v];
      RunningIsWeighted(alpha, threshold, init);
      ExpectedPush(alpha, threshold, init, v);
      hide Expected, Observed;
    }
  }

  lemma PowerNonnegative(base: real, n: nat)
    requires base >= 0.0
    ensures Power(base, n) >= 0.0
  {}

  lemma WeightNonnegative(alpha: real, n: nat, i: nat)
    requires 0.0 < alpha <= 1.0 && i < n
    ensures Weight(alpha, n, i) >= 0.0
  {
    PowerNonnegative(1.0 - alpha, if i == 0 then n - 1 else n - 1 - i);
  }

  /** A weighted mean of values within bounds stays within them. */
  lemma {:induction false} MeanWithin(alpha: real, values: seq<real>, low: real, high: real)
    requires 0.0 < alpha <= 1.0 && values != [] && forall v <- values :: low <= v <= high
    ensures low <= WeightedMean(alpha, values) <= high
  {
    var init, v := values[..|values| - 1], values[|values| - 1];
    assert values == init + [v] && v in values;
    if init == [] {
      assert values == [v];
      One(alpha, v);
    } else {
      assert forall u <- init :: u in values;
      MeanWithin(alpha, init, low, high);
      OneMore(alpha, init, v);
      Blend(alpha, WeightedMean(alpha, init), v, low, high);
    }
  }

  lemma Blend(a: real, m: real, v: real, low: real, high: real)
    requires 0.0 <= a <= 1.0 && low <= m <= high && low <= v <= high
    ensures low <= (1.0 - a) * m + a * v <= high
  {
    BlendAbove(a, m, v, low);
    BlendAbove(a, -m, -v, -high);
    assert (1.0 - a) * -m + a * -v == -((1.0 - a) * m + a * v);
  }

  lemma BlendAbove(a: real, m: real, v: real, low: real)
    requires 0.0 <= a <= 1.0 && low <= m && low <= v
    ensures low <= (1.0 - a) * m + a * v
  {
    assert (1.0 - a) * (m - low) >= 0.0;
    assert a * (v - low) >= 0.0;
    assert (1.0 - a) * m + a * v == low + (1.0 - a) * (m - low) + a * (v - low);
  }

  /** The weights are not negative and sum to one. */
  lemma WeightsSumToOne(alpha: real, n: nat)
    requires 0.0 < alpha <= 1.0 && n > 0
    ensures forall i | 0 <= i < n :: Weight(alpha, n, i) >= 0.0
    ensures WeightedMean(alpha, seq(n, _ => 1.0)) == 1.0
  {
    MeanWithin(alpha, seq(n, _ => 1.0), 1.0, 1.0);
    forall i | 0 <= i < n ensures Weight(alpha, n, i) >= 0.0 {
      WeightNonnegative(alpha, n, i);
    }
  }

  lemma {:induction false} SumNonnegative(alpha: real, values: seq<real>, k: nat)
    requires 0.0 < alpha <= 1.0 && k <= |values| && forall v <- values :: v >= 0.0
    ensures WeightedSum(alpha, values, k) >= 0.0
  {
    if k > 0 {
      SumNonnegative(alpha, values, k - 1);
      WeightNonnegative(alpha, |values|, k - 1);
      assert values[k - 1] in values;
      Scale(0.0, Weight(alpha, |values|, k - 1), values[k - 1]);
    }
  }

  /** The running variance is never negative and the running mean stays within the samples. */
  lemma RunningBounds(alpha: real, threshold: real, values: seq<real>, low: real, high: real)
    requires 0.0 < alpha <= 1.0 && values != [] && forall v <- values :: low <= v <= high
    ensures var s := After(Init(alpha, threshold), values);
            s.variance >= 0.0 && low <= s.mean <= high
  {
    RunningIsWeighted(alpha, threshold, values);
    MeanWithin(alpha, values, low, high);
    var squares := SquaredDeviations(values, WeightedMean(alpha, values));
    forall d | d in squares ensures d >= 0.0 {
      var i :| 0 <= i < |squares| && squares[i] == d;
      SquareNonnegative(values[i] - WeightedMean(alpha, values));
    }
    SumNonnegative(alpha, squares, |squares|);
  }

  lemma SquareNonnegative(x: real)
    ensures Square(x) >= 0.0
  {}

  /** The detector judges exactly when enough samples were seen and they varied; it then votes when
      the new value lies more than the threshold's standard deviations from the weighted mean, and
      scores by how many it does. */
  lemma VotesExactlyWhen(alpha: real, threshold: real, values: seq<real>, v: real)
    ensures var verdict := Judged(After(Init(alpha, threshold), values), v);
            var judges := values != [] && |values| >= Warmup(alpha) && WeightedVariance(alpha, values) > VARIANCE_FLOOR;
            var squared := (v - WeightedMean(alpha, values)) * (v - WeightedMean(alpha, values));
            && (verdict.isAnomaly <==>
                  judges && (threshold < 0.0 || squared > threshold * threshold * WeightedVariance(alpha, values)))
            && (verdict.scoreSquared == if judges then squared / WeightedVariance(alpha, values) else 0.0)
  {
    RunningIsWeighted(alpha, threshold, values);
    hide WeightedMean, WeightedVariance, Warmup, After;
  }
}
