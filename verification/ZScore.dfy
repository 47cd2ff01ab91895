/** The rolling z-score detector, over the reals. */
module ZScore {
  import opened Verdicts

  datatype Rolling = Rolling(windowSize: nat, threshold: real, warmup: nat, window: seq<real>)

  function Init(windowSize: nat, threshold: real): Rolling {
    var half := if windowSize / 2 > 5 then windowSize / 2 else 5;
    Rolling(windowSize, threshold, if windowSize < half then windowSize else half, [])
  }

  function Sum(values: seq<real>): real {
    if values == [] then 0.0 else Sum(values[..|values| - 1]) + values[|values| - 1]
  }

  function Mean(values: seq<real>): real
    requires values != []
  {
    Sum(values) / |values| as real
  }

  function Squared(x: real): real { x * x }

  function Squares(values: seq<real>, centre: real): seq<real> {
    seq(|values|, i requires 0 <= i < |values| => Squared(values[i] - centre))
  }

  function Variance(values: seq<real>): real
    requires values != []
  {
    Mean(Squares(values, Mean(values)))
  }

  /** How many samples must be in the window before the detector votes. */
  function Needed(s: Rolling): nat { if s.warmup > 2 then s.warmup else 2 }

  function Judged(s: Rolling, value: real): Verdict {
    if |s.window| >= Needed(s) && Variance(s.window) > VARIANCE_FLOOR
    then Deviation(value - Mean(s.window), Variance(s.window), s.threshold) else QUIET
  }

  function Observed(s: Rolling, value: real): Rolling {
    var longer := s.window + [value];
    s.(window := if |longer| > s.windowSize then longer[1..] else longer)
  }

  /** The detector object. */
  class ZScoreDetector {
    const windowSize: nat
    const threshold: real
    const warmup: nat
    var window: seq<real>

    function State(): Rolling
      reads this
    {
      Rolling(windowSize, threshold, warmup, window)
    }

    constructor (windowSize: nat, threshold: real)
      ensures State() == Init(windowSize, threshold)
    {
      this.windowSize, this.threshold, window := windowSize, threshold, [];
      var half := if windowSize / 2 > 5 then windowSize / 2 else 5;
      warmup := if windowSize < half then windowSize else half;
    }

    method ComputeMean() returns (mean: real)
      requires window != []
      ensures mean == Mean(window)
    {
      var sum := 0.0;
      for i := 0 to |window|
        invariant sum == Sum(window[..i])
      {
        sum := sum + window[i];
        assert window[..i + 1][..i] == window[..i];
      }
      assert window[..|window|] == window;
      mean := sum / |window| as real;
    }

    /** The square of the source's standard deviation. */
    method ComputeVariance(mean: real) returns (variance: real)
      requires window != [] && mean == Mean(window)
      ensures variance == Variance(window)
    {
      ghost var squares := Squares(window, mean);
      var sum := 0.0;
      for i := 0 to |window|
        invariant sum == Sum(squares[..i])
      {
        var diff := window[i] - mean;
        sum := sum + diff * diff;
        assert squares[..i + 1][..i] == squares[..i] && squares[i] == diff * diff;
      }
      assert squares[..|window|] == squares;
      variance := sum / |window| as real;
    }

    method Observe(value: real) returns (verdict: Verdict)
      modifies this
      ensures State() == Observed(old(State()), value) && verdict == Judged(old(State()), value)
    {
      hide Mean, Variance;
      verdict := QUIET;
      if |window| >= (if warmup > 2 then warmup else 2) {
        var mean := ComputeMean();
        var variance := ComputeVariance(mean);
        if variance > VARIANCE_FLOOR {
          verdict := Deviation(value - mean, variance, threshold);
        }
      }
      window := window + [value];
      if |window| > windowSize {
        window := window[1..];
      }
    }
  }

  function After(s: Rolling, values: seq<real>): Rolling {
    if values == [] then s else Observed(After(s, values[..|values| - 1]), values[|values| - 1])
  }

  /** The last n values, or all of them if there are fewer. */
  function Last(values: seq<real>, n: nat): seq<real> {
    if |values| <= n then values else values[|values| - n..]
  }

  /** The window always holds the last windowSize values. */
  lemma {:induction false} WindowIsLast(windowSize: nat, threshold: real, values: seq<real>)
    ensures After(Init(windowSize, threshold), values)
         == Init(windowSize, threshold).(window := Last(values, windowSize))
  {
    if values != [] {
      var init, v := values[..|values| - 1], values[|values| - 1];
      WindowIsLast(windowSize, threshold, init);
      assert values == init + [v];
    }
  }

  /** The detector judges exactly when at least two values, half the window and five (or the whole
      window, when that is less) have been seen and they varied; it then votes when the new value
      lies more than the threshold's standard deviations from the mean of the last windowSize
      values, and scores by how many it does. */
  lemma VotesExactlyWhen(windowSize: nat, threshold: real, values: seq<real>, v: real)
    ensures var last, verdict := Last(values, windowSize), Judged(After(Init(windowSize, threshold), values), v);
            var enough := |last| >= 2 && (|last| >= windowSize || (|last| >= 5 && |last| >= windowSize / 2));
            var judges := enough && Variance(last) > VARIANCE_FLOOR;
            && (verdict.isAnomaly <==>
                  judges && (threshold < 0.0
                             || (v - Mean(last)) * (v - Mean(last)) > threshold * threshold * Variance(last)))
            && (verdict.scoreSquared == if judges then (v - Mean(last)) * (v - Mean(last)) / Variance(last) else 0.0)
  {
    WindowIsLast(windowSize, threshold, values);
    hide Mean, Variance, After;
  }

  function SumOfSquares(values: seq<real>): real {
    if values == [] then 0.0 else SumOfSquares(values[..|values| - 1]) + Squared(values[|values| - 1])
  }

  lemma {:induction false} SquaresAbout(values: seq<real>, centre: real)
    ensures Sum(Squares(values, centre))
         == SumOfSquares(values) - 2.0 * Times(centre, Sum(values)) + Times(|values| as real, Squared(centre))
  {
    hide Squared, Times;
    if values == [] {
      NoTerms(centre);
    } else {
      var init, last, squares := values[..|values| - 1], values[|values| - 1], Squares(values, centre);
      SquaresAbout(init, centre);
      assert squares[..|values| - 1] == Squares(init, centre);
      OneMoreTerm(Sum(init), last, centre, |init| as real);
    }
  }

  lemma NoTerms(c: real)
    ensures Times(c, 0.0) == 0.0 && Times(0.0, Squared(c)) == 0.0
  {}

  lemma OneMoreTerm(sum: real, x: real, c: real, n: real)
    ensures Squared(x - c) == Squared(x) - 2.0 * Times(c, x) + Squared(c)
    ensures Times(c, sum + x) == Times(c, sum) + Times(c, x)
    ensures Times(n + 1.0, Squared(c)) == Times(n, Squared(c)) + Squared(c)
  {}

  /** The mean and the variance by their other formulas: n times the mean is the sum, and n times the
      variance is the sum of the squares less n times the squared mean. */
  lemma MeanAndVariance(values: seq<real>)
    requires values != []
    ensures Times(|values| as real, Mean(values)) == Sum(values)
    ensures Times(|values| as real, Variance(values))
         == SumOfSquares(values) - Times(|values| as real, Squared(Mean(values)))
  {
    hide Times, Squared, Mean, Sum, Squares, SumOfSquares;
    var n, m := |values| as real, Mean(values);
    TimesMean(values);
    SquaresKeepCount(values, m);
    TimesMean(Squares(values, m));
    SquaresAbout(values, m);
    Exchanged(n, m);
  }

  lemma SquaresKeepCount(values: seq<real>, centre: real)
    ensures |Squares(values, centre)| == |values|
  {}

  lemma TimesMean(values: seq<real>)
    requires values != []
    ensures Times(|values| as real, Mean(values)) == Sum(values)
  {
    var n := |values| as real;
    assert n > 0.0 && (Sum(values) / n) * n == Sum(values);
  }

  lemma Exchanged(n: real, m: real)
    ensures Times(m, Times(n, m)) == Times(n, Squared(m))
  {}
}
