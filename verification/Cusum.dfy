/** The two-sided cumulative-sum detector, over the reals: its two accumulators are proved to be
    maximum suffix sums since the last alarm. */
module Cusum {
  import opened Verdicts

  const MIN_STDDEV := 0.000_000_001

  /** Standard deviations are kept away from zero. */
  type Spread = r: real | r > 0.0 witness 1.0

  datatype Sums = Sums(mean: real, stddev: Spread, slack: real, threshold: real, high: real, low: real)

  function Max(a: real, b: real): (m: real)
    ensures a <= m && b <= m && (m == a || m == b)
  {
    if a < b then b else a
  }

  function Init(mean: real, stddev: real, slack: real, threshold: real): Sums {
    Sums(mean, Max(stddev, MIN_STDDEV), slack, threshold, 0.0, 0.0)
  }

  function Standardized(s: Sums, value: real): real { (value - s.mean) / s.stddev }

  /** The accumulators with one standardized value taken in, before any reset. */
  function Accumulated(s: Sums, z: real): Sums {
    s.(high := Max(0.0, s.high + z - s.slack), low := Max(0.0, s.low - z - s.slack))
  }

  function Drive(s: Sums): real { Max(s.high, s.low) }

  function JudgedZ(s: Sums, z: real): Verdict {
    var drive := Drive(Accumulated(s, z));
    Verdict(drive > s.threshold, drive * drive)
  }

  function ObservedZ(s: Sums, z: real): Sums {
    if JudgedZ(s, z).isAnomaly then s.(high := 0.0, low := 0.0) else Accumulated(s, z)
  }

  function Judged(s: Sums, value: real): Verdict { JudgedZ(s, Standardized(s, value)) }

  function Observed(s: Sums, value: real): Sums { ObservedZ(s, Standardized(s, value)) }

  /** The detector object. */
  class CusumDetector {
    const mean: real
    const stddev: Spread
    const slack: real
    const threshold: real
    var cumulativeHigh: real
    var cumulativeLow: real

    function State(): Sums
      reads this
    {
      Sums(mean, stddev, slack, threshold, cumulativeHigh, cumulativeLow)
    }

    constructor (referenceMean: real, referenceStddev: real, slack: real, threshold: real)
      ensures State() == Init(referenceMean, referenceStddev, slack, threshold)
    {
      mean, stddev, this.slack, this.threshold := referenceMean, Max(referenceStddev, MIN_STDDEV), slack, threshold;
      cumulativeHigh, cumulativeLow := 0.0, 0.0;
    }

    method Observe(value: real) returns (verdict: Verdict)
      modifies this
      ensures State() == Observed(old(State()), value) && verdict == Judged(old(State()), value)
    {
      var standardized := (value - mean) / stddev;
      cumulativeHigh := Max(0.0, cumulativeHigh + standardized - slack);
      cumulativeLow := Max(0.0, cumulativeLow - standardized - slack);
      var drive := Max(cumulativeHigh, cumulativeLow);
      verdict := Verdict(drive > threshold, drive * drive);
      if verdict.isAnomaly {
        cumulativeHigh := 0.0;
        cumulativeLow := 0.0;
      }
    }
  }

  // ---------------------------------------------------------------------
  // Suffix sums
  // ---------------------------------------------------------------------

  function Total(values: seq<real>): real {
    if values == [] then 0.0 else Total(values[..|values| - 1]) + values[|values| - 1]
  }

  /** m is the larger of zero and the greatest sum of a nonempty suffix (the empty suffix being
      the one that sums to zero). */
  ghost predicate IsMaxSuffix(m: real, values: seq<real>) {
    && (forall i | 0 <= i <= |values| :: Total(values[i..]) <= m)
    && (exists i | 0 <= i <= |values| :: Total(values[i..]) == m)
  }

  lemma TotalPush(values: seq<real>, v: real)
    ensures Total(values + [v]) == Total(values) + v
  {
    assert (values + [v])[..|values|] == values;
  }

  lemma MaxSuffixEmpty()
    ensures IsMaxSuffix(0.0, [])
  {
    var none: seq<real> := [];
    assert none[0..] == none && Total(none[0..]) == 0.0;
  }

  /** Taking in one more value, clipped at zero, keeps the maximum suffix sum. */
  lemma MaxSuffixPush(m: real, values: seq<real>, v: real)
    requires IsMaxSuffix(m, values)
    ensures IsMaxSuffix(Max(0.0, m + v), values + [v])
  {
    var longer, n := values + [v], |values|;
    forall i | 0 <= i <= n ensures Total(longer[i..]) == Total(values[i..]) + v {
      TotalPush(values[i..], v);
      assert longer[i..] == values[i..] + [v];
    }
    assert longer[n + 1..] == [];
    assert Total(longer[n + 1..]) == 0.0;
    var i :| 0 <= i <= n && Total(values[i..]) == m;
    assert Total(longer[i..]) == m + v;
  }

  /** What the upper and lower side add up for each standardized value. */
  function Above(zs: seq<real>, slack: real): (y: seq<real>)
    ensures |y| == |zs|
  {
    seq(|zs|, i requires 0 <= i < |zs| => zs[i] - slack)
  }

  function Below(zs: seq<real>, slack: real): (y: seq<real>)
    ensures |y| == |zs|
  {
    seq(|zs|, i requires 0 <= i < |zs| => -zs[i] - slack)
  }

  function After(s: Sums, zs: seq<real>): Sums {
    if zs == [] then s else ObservedZ(After(s, zs[..|zs| - 1]), zs[|zs| - 1])
  }

  /** The standardized values since the last alarm. */
  function SinceAlarm(s: Sums, zs: seq<real>): seq<real> {
    if zs == [] then []
    else
      var init, z := zs[..|zs| - 1], zs[|zs| - 1];
      if JudgedZ(After(s, init), z).isAnomaly then [] else SinceAlarm(s, init) + [z]
  }

  ghost predicate Meaning(s: Sums, since: seq<real>) {
    IsMaxSuffix(s.high, Above(since, s.slack)) && IsMaxSuffix(s.low, Below(since, s.slack))
  }

  lemma AccumulatedMeaning(s: Sums, since: seq<real>, z: real)
    requires Meaning(s, since)
    ensures Meaning(Accumulated(s, z), since + [z])
  {
    MaxSuffixPush(s.high, Above(since, s.slack), z - s.slack);
    MaxSuffixPush(s.low, Below(since, s.slack), -z - s.slack);
    assert Above(since + [z], s.slack) == Above(since, s.slack) + [z - s.slack];
    assert Below(since + [z], s.slack) == Below(since, s.slack) + [-z - s.slack];
    hide IsMaxSuffix, Above, Below;
  }

  lemma {:induction false} SettingsKept(s: Sums, zs: seq<real>)
    ensures After(s, zs) == s.(high := After(s, zs).high, low := After(s, zs).low)
  {
    if zs != [] { SettingsKept(s, zs[..|zs| - 1]); }
  }

  /** After any history each accumulator is the maximum suffix sum, since the last alarm, of
      what its side adds up. */
  lemma {:induction false} SumsAreMaxSuffixes(s: Sums, zs: seq<real>)
    requires s.high == 0.0 && s.low == 0.0
    ensures Meaning(After(s, zs), SinceAlarm(s, zs))
  {
    hide IsMaxSuffix;
    MaxSuffixEmpty();
    assert Above([], s.slack) == [] && Below([], s.slack) == [];
    if zs != [] {
      var init, z := zs[..|zs| - 1], zs[|zs| - 1];
      SumsAreMaxSuffixes(s, init);
      SettingsKept(s, init);
      AccumulatedMeaning(After(s, init), SinceAlarm(s, init), z);
    }
  }

  /** A stretch that ends in the newest value and lies above the threshold on one side. */
  ghost predicate Excess(zs: seq<real>, slack: real, threshold: real) {
    exists i | 0 <= i <= |zs| :: Total(Above(zs, slack)[i..]) > threshold || Total(Below(zs, slack)[i..]) > threshold
  }

  /** The detector fires exactly when, on one side, some stretch of values since the last alarm
      up to and including the new one sums to more than the threshold. */
  lemma FiresExactlyWhen(s: Sums, zs: seq<real>, z: real)
    requires s.high == 0.0 && s.low == 0.0
    ensures JudgedZ(After(s, zs), z).isAnomaly <==> Excess(SinceAlarm(s, zs) + [z], s.slack, s.threshold)
  {
    var t, since := After(s, zs), SinceAlarm(s, zs) + [z];
    SumsAreMaxSuffixes(s, zs);
    SettingsKept(s, zs);
    AccumulatedMeaning(t, SinceAlarm(s, zs), z);
    var u := Accumulated(t, z);
    hide After, SinceAlarm, Above, Below, Total;
    var i :| 0 <= i <= |since| && Total(Above(since, s.slack)[i..]) == u.high;
    var j :| 0 <= j <= |since| && Total(Below(since, s.slack)[j..]) == u.low;
  }

  function AfterValues(s: Sums, values: seq<real>): Sums {
    if values == [] then s else Observed(AfterValues(s, values[..|values| - 1]), values[|values| - 1])
  }

  /** How many standard deviations each value lies above the mean. */
  function Deviations(mean: real, spread: Spread, values: seq<real>): (zs: seq<real>)
    ensures |zs| == |values|
  {
    seq(|values|, i requires 0 <= i < |values| => (values[i] - mean) / spread)
  }

  lemma {:induction false} ValuesStandardized(s: Sums, values: seq<real>)
    ensures AfterValues(s, values) == After(s, Deviations(s.mean, s.stddev, values))
  {
    hide ObservedZ;
    if values != [] {
      var init := values[..|values| - 1];
      ValuesStandardized(s, init);
      var zs := Deviations(s.mean, s.stddev, values);
      assert zs[..|zs| - 1] == Deviations(s.mean, s.stddev, init);
      SettingsKept(s, zs[..|zs| - 1]);
    }
  }

  /** On the values themselves, with their deviations taken in units of the reference deviation,
      but of at least 1e-9: the detector fires exactly when some stretch since the last alarm that
      ends in the new value exceeds the threshold, and its score is the greatest sum of any. */
  lemma AlarmsExactlyWhen(mean: real, stddev: real, slack: real, threshold: real, values: seq<real>, v: real)
    ensures var spread := if stddev > 0.000_000_001 then stddev else 0.000_000_001;
            var s, zs := Init(mean, stddev, slack, threshold), Deviations(mean, spread, values);
            var since := SinceAlarm(s, zs) + [(v - mean) / spread];
            var verdict := Judged(AfterValues(s, values), v);
            && (verdict.isAnomaly <==> Excess(since, slack, threshold))
            && exists top :: verdict.scoreSquared == top * top && Greatest(top, since, slack)
  {
    hide After, SinceAlarm, Greatest, Excess, AfterValues, Meaning, Deviations, Judged, JudgedZ, Drive;
    var s := Init(mean, stddev, slack, threshold);
    var zs := Deviations(mean, s.stddev, values);
    var z := (v - mean) / s.stddev;
    ValuesStandardized(s, values);
    SettingsKept(s, zs);
    FiresExactlyWhen(s, zs, z);
    SumsAreMaxSuffixes(s, zs);
    var t := After(s, zs);
    AccumulatedMeaning(t, SinceAlarm(s, zs), z);
    JudgedBy(t, v);
    GreatestOf(Accumulated(t, z), SinceAlarm(s, zs) + [z]);
  }

  lemma JudgedBy(s: Sums, value: real)
    ensures var z := (value - s.mean) / s.stddev;
            && Judged(s, value) == JudgedZ(s, z)
            && JudgedZ(s, z).scoreSquared == Drive(Accumulated(s, z)) * Drive(Accumulated(s, z))
  {}

  /** The greatest sum, on either side, of a stretch at the end, the empty one included. */
  ghost predicate Greatest(top: real, zs: seq<real>, slack: real) {
    && (forall i | 0 <= i <= |zs| :: Total(Above(zs, slack)[i..]) <= top && Total(Below(zs, slack)[i..]) <= top)
    && (exists i | 0 <= i <= |zs| :: Total(Above(zs, slack)[i..]) == top || Total(Below(zs, slack)[i..]) == top)
  }

  lemma GreatestOf(u: Sums, since: seq<real>)
    requires Meaning(u, since)
    ensures Greatest(Drive(u), since, u.slack)
  {
    hide Above, Below, Total;
    var i :| 0 <= i <= |since| && Total(Above(since, u.slack)[i..]) == u.high;
    var j :| 0 <= j <= |since| && Total(Below(since, u.slack)[j..]) == u.low;
    forall k | 0 <= k <= |since|
      ensures Total(Above(since, u.slack)[k..]) <= Drive(u) && Total(Below(since, u.slack)[k..]) <= Drive(u)
    {
      assert Total(Above(since, u.slack)[k..]) <= u.high && Total(Below(since, u.slack)[k..]) <= u.low;
    }
  }

  // ---------------------------------------------------------------------
  // False alarms and detection delay
  // ---------------------------------------------------------------------

  ghost predicate Reachable(s: Sums) {
    0.0 <= s.high <= s.threshold && 0.0 <= s.low <= s.threshold
  }

  lemma {:induction false} ReachableAlways(s: Sums, zs: seq<real>)
    requires Reachable(s)
    ensures Reachable(After(s, zs))
  {
    if zs != [] {
      ReachableAlways(s, zs[..|zs| - 1]);
      SettingsKept(s, zs[..|zs| - 1]);
    }
  }

  /** Values within the slack never raise an alarm. */
  lemma {:induction false} QuietWithinSlack(s: Sums, zs: seq<real>)
    requires s.high == 0.0 && s.low == 0.0 && s.threshold >= 0.0
    requires forall z <- zs :: -s.slack <= z <= s.slack
    ensures After(s, zs) == s
    ensures forall n | 0 <= n < |zs| :: !JudgedZ(After(s, zs[..n]), zs[n]).isAnomaly
  {
    if zs != [] {
      var init, z := zs[..|zs| - 1], zs[|zs| - 1];
      assert z in zs && forall y <- init :: y in zs;
      QuietWithinSlack(s, init);
      forall n | 0 <= n < |zs| ensures !JudgedZ(After(s, zs[..n]), zs[n]).isAnomaly {
        if n < |init| {
          assert zs[..n] == init[..n] && zs[n] == init[n];
        } else {
          assert zs[..n] == init;
        }
      }
    }
  }

  ghost predicate NoAlarm(s: Sums, zs: seq<real>) {
    forall n | 0 <= n < |zs| :: !JudgedZ(After(s, zs[..n]), zs[n]).isAnomaly
  }

  lemma NoAlarmPrefix(s: Sums, zs: seq<real>, z: real)
    requires NoAlarm(s, zs + [z])
    ensures NoAlarm(s, zs) && After(s, zs + [z]) == Accumulated(After(s, zs), z)
  {
    var longer := zs + [z];
    assert longer[..|zs|] == zs && longer[|zs|] == z;
    forall n | 0 <= n < |zs| ensures !JudgedZ(After(s, zs[..n]), zs[n]).isAnomaly {
      assert longer[..n] == zs[..n] && longer[n] == zs[n];
    }
  }

  function Climb(n: nat, d: real): real { if n == 0 then 0.0 else Climb(n - 1, d) + d }

  lemma {:induction false} ClimbIsProduct(n: nat, d: real)
    ensures Climb(n, d) == n as real * d
  {
    if n > 0 {
      ClimbIsProduct(n - 1, d);
      assert n as real * d == (n - 1) as real * d + d;
    }
  }

  /** While a shift lasts without an alarm, its side grows by at least d per value. */
  lemma {:induction false} ShiftClimbs(s: Sums, zs: seq<real>, d: real)
    requires s.high >= 0.0 && s.low >= 0.0 && NoAlarm(s, zs)
    ensures (forall z <- zs :: z >= s.slack + d) ==> After(s, zs).high >= Climb(|zs|, d)
    ensures (forall z <- zs :: -z >= s.slack + d) ==> After(s, zs).low >= Climb(|zs|, d)
  {
    if zs != [] {
      var init, z := zs[..|zs| - 1], zs[|zs| - 1];
      assert zs == init + [z] && z in zs && forall y <- init :: y in zs;
      NoAlarmPrefix(s, init, z);
      ShiftClimbs(s, init, d);
      SettingsKept(s, init);
      hide After, NoAlarm;
    }
  }

  /** A shift of at least slack + d that lasts floor(threshold / d) + 1 values raises an alarm
      within them, whatever state it starts from. */
  lemma ShiftDetected(s: Sums, zs: seq<real>, d: real)
    requires Reachable(s) && d > 0.0
    requires (forall z <- zs :: z >= s.slack + d) || (forall z <- zs :: -z >= s.slack + d)
    requires |zs| == (s.threshold / d).Floor + 1
    ensures exists n | 0 <= n < |zs| :: JudgedZ(After(s, zs[..n]), zs[n]).isAnomaly
  {
    if NoAlarm(s, zs) {
      ShiftClimbs(s, zs, d);
      ReachableAlways(s, zs);
      SettingsKept(s, zs);
      ClimbsPast(s.threshold, d, |zs|);
    }
  }

  lemma EnoughSteps(threshold: real, d: real, n: int)
    requires d > 0.0 && n == (threshold / d).Floor + 1
    ensures n as real * d > threshold
  {
    var q := threshold / d;
    assert q * d == threshold && n as real - q > 0.0;
    assert (n as real - q) * d > 0.0;
    assert n as real * d == q * d + (n as real - q) * d;
  }

  lemma ClimbsPast(threshold: real, d: real, n: nat)
    requires d > 0.0 && n == (threshold / d).Floor + 1
    ensures Climb(n, d) > threshold
  {
    EnoughSteps(threshold, d, n);
    ClimbIsProduct(n, d);
  }
}
