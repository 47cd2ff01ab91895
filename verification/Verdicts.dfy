/** What a detector says about one reading. Standard deviations appear squared, because square
    roots are not part of this model: the score recorded is the square of the source's score. */
module Verdicts {
  datatype Verdict = Verdict(isAnomaly: bool, scoreSquared: real)

  const QUIET := Verdict(false, 0.0)

  /** The square of the smallest standard deviation a detector divides by. */
  const VARIANCE_FLOOR := 0.000_000_000_000_000_001

  /** |deviation| / sqrt(variance) > threshold, with both sides squared; SquaredIsDirect says why. */
  function Deviation(deviation: real, variance: real, threshold: real): Verdict
    requires variance > 0.0
  {
    Verdict(threshold < 0.0 || deviation * deviation > threshold * threshold * variance,
            deviation * deviation / variance)
  }

  function Abs(x: real): real { if x < 0.0 then -x else x }

  function Times(a: real, b: real): real { a * b }

  /** The squared form judges and scores as the source does with the deviation itself, whatever
      the threshold: with a negative one every value judged is an anomaly. */
  lemma SquaredIsDirect(deviation: real, variance: real, sigma: real, threshold: real)
    requires sigma > 0.0 && variance > 0.0 && variance == sigma * sigma
    ensures var z := Abs(deviation) / sigma;
            && (Deviation(deviation, variance, threshold).isAnomaly <==> z > threshold)
            && Deviation(deviation, variance, threshold).scoreSquared == z * z
  {
    var z := Abs(deviation) / sigma;
    assert z >= 0.0 && z * sigma == Abs(deviation);
    SquareOfProduct(z, sigma);
    assert deviation * deviation == Times(Times(z, z), variance);
    QuotientOfProduct(Times(z, z), variance);
    if threshold >= 0.0 {
      if z > threshold {
        SquareGrows(threshold, z, variance);
      } else {
        SquareGrows(z, threshold, variance);
      }
    }
  }

  lemma SquareOfProduct(a: real, b: real)
    ensures (a * b) * (a * b) == (a * a) * (b * b)
  {}

  lemma QuotientOfProduct(a: real, b: real)
    requires b > 0.0
    ensures Times(a, b) / b == a
  {}

  lemma SquareGrows(low: real, high: real, factor: real)
    requires 0.0 <= low <= high && factor > 0.0
    ensures Times(Times(low, low), factor) <= Times(Times(high, high), factor)
    ensures low < high ==> Times(Times(low, low), factor) < Times(Times(high, high), factor)
  {
    hide Times;
    Grows(low, high, low);
    Grows(low, high, high);
    Grows(Times(low, low), Times(high, high), factor);
    if low < high {
      GrowsStrictly(low, high, high);
      GrowsStrictly(Times(low, low), Times(high, high), factor);
    }
  }

  lemma Grows(x: real, y: real, factor: real)
    requires x <= y && factor >= 0.0
    ensures Times(x, factor) <= Times(y, factor) && Times(factor, x) <= Times(factor, y)
  {}

  lemma GrowsStrictly(x: real, y: real, factor: real)
    requires x < y && factor > 0.0
    ensures Times(x, factor) < Times(y, factor)
  {}
}
