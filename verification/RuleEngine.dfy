/** Alerts from readings: an edge-triggered limit check and a vote among detectors, each with
    its own cooldown, for every registered sensor. Detectors are held by value. */
module RuleEngine {
  import opened Optional
  import opened Verdicts
  import Ewma
  import Cusum
  import ZScore

  datatype Detector = Rolling(z: ZScore.Rolling) | Weighted(e: Ewma.Estimate) | Cumulative(c: Cusum.Sums) {
    function Judged(value: real): Verdict {
      match this
      case Rolling(z) => ZScore.Judged(z, value)
      case Weighted(e) => Ewma.Judged(e, value)
      case Cumulative(c) => Cusum.Judged(c, value)
    }

    function Observed(value: real): Detector {
      match this
      case Rolling(z) => Rolling(ZScore.Observed(z, value))
      case Weighted(e) => Weighted(Ewma.Observed(e, value))
      case Cumulative(c) => Cumulative(Cusum.Observed(c, value))
    }

    function Name(): string {
      match this case Rolling(_) => "zscore" case Weighted(_) => "ewma" case Cumulative(_) => "cusum"
    }
  }

  datatype Limits = Limits(low: Option<real>, high: Option<real>)

  datatype Side = Inside | Above | Below

  datatype Rule = Rule(strategies: seq<Detector>, votesRequired: nat, cooldown: nat, limits: Limits,
                       side: Side, lastLimit: Option<int>, lastStatistical: Option<int>)

  datatype Alert =
    | LimitAlert(value: real, limit: real, above: bool, score: real, stamp: int)
    | StatisticalAlert(value: real, voters: seq<string>, total: nat, scoreSquared: real, stamp: int)

  datatype Reading = Reading(value: real, stamp: int)

  // ---------------------------------------------------------------------
  // One reading
  // ---------------------------------------------------------------------

  predicate CooledDown(last: Option<int>, cooldown: nat, now: int) { last.None? || now - last.value >= cooldown }

  function SideOf(limits: Limits, value: real): Side {
    if limits.high.Some? && value > limits.high.value then Above
    else if limits.low.Some? && value < limits.low.value then Below
    else Inside
  }

  predicate LimitFires(r: Rule, x: Reading) {
    var side := SideOf(r.limits, x.value);
    side != Inside && side != r.side && CooledDown(r.lastLimit, r.cooldown, x.stamp)
  }

  function LimitAlertFor(limits: Limits, x: Reading): Alert
    requires SideOf(limits, x.value) != Inside
  {
    var above := SideOf(limits, x.value) == Above;
    var limit := if above then limits.high.value else limits.low.value;
    LimitAlert(x.value, limit, above, if above then x.value - limit else limit - x.value, x.stamp)
  }

  /** The names of the detectors that call the value anomalous, in order. */
  function Voters(strategies: seq<Detector>, value: real): seq<string> {
    if strategies == [] then []
    else
      var last := strategies[|strategies| - 1];
      Voters(strategies[..|strategies| - 1], value) + if last.Judged(value).isAnomaly then [last.Name()] else []
  }

  function TopScore(strategies: seq<Detector>, value: real): real {
    if strategies == [] then 0.0
    else
      Cusum.Max(TopScore(strategies[..|strategies| - 1], value),
                strategies[|strategies| - 1].Judged(value).scoreSquared)
  }

  predicate VoteFires(r: Rule, x: Reading) {
    && r.strategies != [] && |Voters(r.strategies, x.value)| >= r.votesRequired
    && CooledDown(r.lastStatistical, r.cooldown, x.stamp)
  }

  function VoteAlertFor(strategies: seq<Detector>, x: Reading): Alert {
    StatisticalAlert(x.value, Voters(strategies, x.value), |strategies|, TopScore(strategies, x.value), x.stamp)
  }

  function AllObserved(strategies: seq<Detector>, value: real): (observed: seq<Detector>)
    ensures |observed| == |strategies|
  {
    seq(|strategies|, k requires 0 <= k < |strategies| => strategies[k].Observed(value))
  }

  function AlertsFor(r: Rule, x: Reading): seq<Alert> {
    (if LimitFires(r, x) then [LimitAlertFor(r.limits, x)] else [])
    + (if VoteFires(r, x) then [VoteAlertFor(r.strategies, x)] else [])
  }

  function Next(r: Rule, x: Reading): Rule {
    r.(side := SideOf(r.limits, x.value),
       lastLimit := if LimitFires(r, x) then Some(x.stamp) else r.lastLimit,
       strategies := AllObserved(r.strategies, x.value),
       lastStatistical := if VoteFires(r, x) then Some(x.stamp) else r.lastStatistical)
  }

  function After(r: Rule, xs: seq<Reading>): Rule {
    if xs == [] then r else Next(After(r, xs[..|xs| - 1]), xs[|xs| - 1])
  }

  function Alerts(r: Rule, xs: seq<Reading>): seq<Alert> {
    if xs == [] then []
    else
      var init := xs[..|xs| - 1];
      Alerts(r, init) + AlertsFor(After(r, init), xs[|xs| - 1])
  }

  /** Does the i-th reading raise a limit alert, a statistical alert? */
  predicate LimitAt(r: Rule, xs: seq<Reading>, i: nat)
    requires i < |xs|
  {
    LimitFires(After(r, xs[..i]), xs[i])
  }

  predicate VoteAt(r: Rule, xs: seq<Reading>, i: nat)
    requires i < |xs|
  {
    VoteFires(After(r, xs[..i]), xs[i])
  }

  // ---------------------------------------------------------------------
  // The engine
  // ---------------------------------------------------------------------

  datatype Published = Published(sensor: string, alert: Alert)

  function Tagged(sensor: string, alerts: seq<Alert>): (p: seq<Published>)
    ensures |p| == |alerts|
  {
    seq(|alerts|, k requires 0 <= k < |alerts| => Published(sensor, alerts[k]))
  }

  class RuleEngine {
    var rules: map<string, Rule>
    var published: seq<Published>

    constructor ()
      ensures rules == map[] && published == []
    {
      rules, published := map[], [];
    }

    method RegisterSensor(sensor: string, strategies: seq<Detector>, votesRequired: nat, cooldown: nat, limits: Limits)
      modifies this`rules
      ensures sensor in rules && rules == old(rules)[sensor := rules[sensor]]
      ensures var r := rules[sensor];
              && r.strategies == strategies && r.cooldown == cooldown && r.limits == limits
              && r.votesRequired == (if votesRequired > 0 then votesRequired else |strategies|)
              && r.side == Inside && r.lastLimit.None? && r.lastStatistical.None?
    {
      var required := if votesRequired == 0 then |strategies| else votesRequired;
      rules := rules[sensor := Rule(strategies, required, cooldown, limits, Inside, None, None)];
    }

    method Observe(sensor: string, value: real, stamp: int)
      modifies this
      ensures sensor !in old(rules) ==> rules == old(rules) && published == old(published)
      ensures sensor in old(rules) ==> rules == old(rules)[sensor := Next(old(rules)[sensor], Reading(value, stamp))]
      ensures sensor in old(rules) ==>
                published == old(published) + Tagged(sensor, AlertsFor(old(rules)[sensor], Reading(value, stamp)))
    {
      if sensor !in rules { return; }
      var limit, checked := CheckLimits(rules[sensor], value, stamp);
      var vote, judged := RunDetectors(checked, value, stamp);
      VoteIndependent(rules[sensor], checked, Reading(value, stamp));
      rules := rules[sensor := judged];
      var alerts := [];
      if limit.Some? { alerts := alerts + [limit.value]; }
      if vote.Some? { alerts := alerts + [vote.value]; }
      published := published + Tagged(sensor, alerts);
    }
  }

  lemma VoteIndependent(r: Rule, checked: Rule, x: Reading)
    requires checked == r.(side := checked.side, lastLimit := checked.lastLimit)
    ensures VoteFires(checked, x) == VoteFires(r, x)
  {}

  method CheckLimits(r: Rule, value: real, stamp: int) returns (alert: Option<Alert>, updated: Rule)
    ensures updated == r.(side := SideOf(r.limits, value), lastLimit := Next(r, Reading(value, stamp)).lastLimit)
    ensures alert == if LimitFires(r, Reading(value, stamp)) then Some(LimitAlertFor(r.limits, Reading(value, stamp)))
                     else None
  {
    var side := Inside;
    if r.limits.high.Some? && value > r.limits.high.value {
      side := Above;
    } else if r.limits.low.Some? && value < r.limits.low.value {
      side := Below;
    }
    var enteredBreach := side != Inside && side != r.side;
    updated := r.(side := side);
    if !enteredBreach || !CooledDown(r.lastLimit, r.cooldown, stamp) { return None, updated; }
    updated := updated.(lastLimit := Some(stamp));
    var above := side == Above;
    var limit := if above then r.limits.high.value else r.limits.low.value;
    alert := Some(LimitAlert(value, limit, above, if value >= limit then value - limit else limit - value, stamp));
  }

  method MaxScore(strategies: seq<Detector>, value: real, votes: seq<Verdict>) returns (top: real)
    requires |votes| == |strategies| && forall k | 0 <= k < |votes| :: votes[k] == strategies[k].Judged(value)
    ensures top == TopScore(strategies, value)
  {
    top := 0.0;
    for k := 0 to |votes|
      invariant top == TopScore(strategies[..k], value)
    {
      assert strategies[..k + 1][..k] == strategies[..k];
      top := Cusum.Max(top, votes[k].scoreSquared);
    }
    assert strategies[..|strategies|] == strategies;
  }

  /** Every strategy sees the reading and votes. */
  method Poll(strategies: seq<Detector>, value: real)
    returns (votes: seq<Verdict>, names: seq<string>, observed: seq<Detector>)
    ensures |votes| == |strategies| && forall k | 0 <= k < |votes| :: votes[k] == strategies[k].Judged(value)
    ensures names == Voters(strategies, value) && observed == AllObserved(strategies, value)
  {
    hide Detector.Judged, Detector.Observed, Detector.Name;
    votes, names, observed := [], [], [];
    for k := 0 to |strategies|
      invariant |votes| == k && forall m | 0 <= m < k :: votes[m] == strategies[m].Judged(value)
      invariant names == Voters(strategies[..k], value)
      invariant |observed| == k && forall m | 0 <= m < k :: observed[m] == strategies[m].Observed(value)
    {
      assert strategies[..k + 1][..k] == strategies[..k];
      var verdict := strategies[k].Judged(value);
      observed := observed + [strategies[k].Observed(value)];
      if verdict.isAnomaly {
        names := names + [strategies[k].Name()];
      }
      votes := votes + [verdict];
    }
    assert strategies[..|strategies|] == strategies;
  }

  method RunDetectors(r: Rule, value: real, stamp: int) returns (alert: Option<Alert>, updated: Rule)
    ensures updated == r.(strategies := AllObserved(r.strategies, value),
                          lastStatistical := Next(r, Reading(value, stamp)).lastStatistical)
    ensures alert == if VoteFires(r, Reading(value, stamp)) then Some(VoteAlertFor(r.strategies, Reading(value, stamp)))
                     else None
  {
    hide TopScore, Detector.Judged, Detector.Observed;
    if r.strategies == [] { return None, r; }
    var votes, names, observed := Poll(r.strategies, value);
    updated := r.(strategies := observed);
    if |names| < r.votesRequired || !CooledDown(r.lastStatistical, r.cooldown, stamp) { return None, updated; }
    updated := updated.(lastStatistical := Some(stamp));
    var top := MaxScore(r.strategies, value, votes);
    alert := Some(StatisticalAlert(value, names, |votes|, top, stamp));
  }

  // ---------------------------------------------------------------------
  // Exactly when alerts are raised
  // ---------------------------------------------------------------------

  lemma {:induction false} SettingsKept(r: Rule, xs: seq<Reading>)
    ensures var t := After(r, xs);
            && t.limits == r.limits && t.cooldown == r.cooldown && t.votesRequired == r.votesRequired
            && |t.strategies| == |r.strategies|
            && t.side == if xs == [] then r.side else SideOf(r.limits, xs[|xs| - 1].value)
  {
    if xs != [] { SettingsKept(r, xs[..|xs| - 1]); }
  }

  /** The last alert of each kind is remembered, and no earlier one is younger. */
  ghost predicate LastLimit(r: Rule, xs: seq<Reading>) {
    var last := After(r, xs).lastLimit;
    && (forall i | 0 <= i < |xs| && LimitAt(r, xs, i) :: last.Some? && xs[i].stamp <= last.value)
    && (last.Some? ==> exists i | 0 <= i < |xs| :: LimitAt(r, xs, i) && xs[i].stamp == last.value)
  }

  ghost predicate LastVote(r: Rule, xs: seq<Reading>) {
    var last := After(r, xs).lastStatistical;
    && (forall i | 0 <= i < |xs| && VoteAt(r, xs, i) :: last.Some? && xs[i].stamp <= last.value)
    && (last.Some? ==> exists i | 0 <= i < |xs| :: VoteAt(r, xs, i) && xs[i].stamp == last.value)
  }

  lemma PrefixAlerts(r: Rule, xs: seq<Reading>, x: Reading)
    ensures forall i | 0 <= i < |xs| :: LimitAt(r, xs + [x], i) == LimitAt(r, xs, i)
    ensures forall i | 0 <= i < |xs| :: VoteAt(r, xs + [x], i) == VoteAt(r, xs, i)
    ensures LimitAt(r, xs + [x], |xs|) == LimitFires(After(r, xs), x)
    ensures VoteAt(r, xs + [x], |xs|) == VoteFires(After(r, xs), x)
    ensures After(r, xs + [x]) == Next(After(r, xs), x)
  {
    hide After, LimitFires, VoteFires;
    var longer := xs + [x];
    assert longer[..|xs|] == xs;
    forall i | 0 <= i < |xs|
      ensures LimitAt(r, longer, i) == LimitAt(r, xs, i) && VoteAt(r, longer, i) == VoteAt(r, xs, i)
    {
      assert longer[..i] == xs[..i];
    }
    AfterPush(r, xs, x);
  }

  lemma AfterPush(r: Rule, xs: seq<Reading>, x: Reading)
    ensures After(r, xs + [x]) == Next(After(r, xs), x)
  {
    assert (xs + [x])[..|xs|] == xs;
  }

  lemma {:induction false} LastRemembered(r: Rule, xs: seq<Reading>)
    requires r.lastLimit.None? && r.lastStatistical.None?
    ensures LastLimit(r, xs) && LastVote(r, xs)
  {
    if xs != [] {
      var init, x := xs[..|xs| - 1], xs[|xs| - 1];
      assert xs == init + [x];
      LastRemembered(r, init);
      PrefixAlerts(r, init, x);
      SettingsKept(r, init);
      LimitStep(r, init, x);
      VoteStep(r, init, x);
    }
  }

  lemma LimitStep(r: Rule, xs: seq<Reading>, x: Reading)
    requires LastLimit(r, xs)
    ensures LastLimit(r, xs + [x])
  {
    PrefixAlerts(r, xs, x);
    var t, longer := After(r, xs), xs + [x];
    hide After, LimitAt, VoteFires, AllObserved;
    if LimitFires(t, x) {
      assert LimitAt(r, longer, |xs|) && longer[|xs|].stamp == x.stamp;
    } else if t.lastLimit.Some? {
      var i :| 0 <= i < |xs| && LimitAt(r, xs, i) && xs[i].stamp == t.lastLimit.value;
      assert LimitAt(r, longer, i) && longer[i].stamp == t.lastLimit.value;
    }
  }

  lemma VoteStep(r: Rule, xs: seq<Reading>, x: Reading)
    requires LastVote(r, xs)
    ensures LastVote(r, xs + [x])
  {
    PrefixAlerts(r, xs, x);
    var t, longer := After(r, xs), xs + [x];
    hide After, VoteAt, LimitFires, AllObserved, Voters;
    if VoteFires(t, x) {
      assert VoteAt(r, longer, |xs|) && longer[|xs|].stamp == x.stamp;
    } else if t.lastStatistical.Some? {
      var i :| 0 <= i < |xs| && VoteAt(r, xs, i) && xs[i].stamp == t.lastStatistical.value;
      assert VoteAt(r, longer, i) && longer[i].stamp == t.lastStatistical.value;
    }
  }

  /** The side a reading lies on, from its value alone; before the first reading it is inside. */
  function SideAt(r: Rule, xs: seq<Reading>, i: int): Side
    requires i < |xs|
  {
    if i < 0 then Inside else SideOf(r.limits, xs[i].value)
  }

  /** Is the value over the high limit? */
  ghost predicate TooHigh(limits: Limits, value: real) { limits.high.Some? && value > limits.high.value }

  /** Is it under the low limit, and not over the high one? */
  ghost predicate TooLow(limits: Limits, value: real) {
    !TooHigh(limits, value) && limits.low.Some? && value < limits.low.value
  }

  /** Does reading i leave the allowed range on this side, where the one before did not lie? */
  ghost predicate Crosses(limits: Limits, xs: seq<Reading>, i: nat, high: bool)
    requires i < |xs|
  {
    if high then TooHigh(limits, xs[i].value) && (i > 0 ==> !TooHigh(limits, xs[i - 1].value))
    else TooLow(limits, xs[i].value) && (i > 0 ==> !TooLow(limits, xs[i - 1].value))
  }

  lemma SideMeans(limits: Limits, value: real)
    ensures SideOf(limits, value) == Above <==> TooHigh(limits, value)
    ensures SideOf(limits, value) == Below <==> TooLow(limits, value)
  {}

  /** A limit alert is raised exactly when the reading crosses a limit and every earlier limit alert
      is at least a cooldown old. Detectors play no part. */
  lemma LimitAlertsExactly(r: Rule, xs: seq<Reading>, i: nat)
    requires r.side.Inside? && r.lastLimit.None? && r.lastStatistical.None? && i < |xs|
    ensures LimitAt(r, xs, i) <==>
              && (Crosses(r.limits, xs, i, true) || Crosses(r.limits, xs, i, false))
              && forall j | 0 <= j < i && LimitAt(r, xs, j) :: xs[i].stamp - xs[j].stamp >= r.cooldown
  {
    LimitBySides(r, xs, i);
    SideMeans(r.limits, xs[i].value);
    if i > 0 { SideMeans(r.limits, xs[i - 1].value); }
    hide LimitAt, SideOf;
  }

  /** What the alert says: the reading, the limit crossed, on which side and by how much. */
  ghost predicate LimitAlertSays(limits: Limits, x: Reading, a: Alert) {
    && a.LimitAlert? && a.value == x.value && a.stamp == x.stamp
    && (TooHigh(limits, x.value) ==> a.above && a.limit == limits.high.value && a.score == x.value - limits.high.value)
    && (TooLow(limits, x.value) ==> !a.above && a.limit == limits.low.value && a.score == limits.low.value - x.value)
    && (TooHigh(limits, x.value) || TooLow(limits, x.value)) && a.score > 0.0
  }

  lemma LimitBySides(r: Rule, xs: seq<Reading>, i: nat)
    requires r.side.Inside? && r.lastLimit.None? && r.lastStatistical.None? && i < |xs|
    ensures LimitAt(r, xs, i) <==>
              && SideAt(r, xs, i) != Inside && SideAt(r, xs, i) != SideAt(r, xs, i - 1)
              && forall j | 0 <= j < i && LimitAt(r, xs, j) :: xs[i].stamp - xs[j].stamp >= r.cooldown
  {
    LastRemembered(r, xs[..i]);
    SettingsKept(r, xs[..i]);
    forall j | 0 <= j < i ensures LimitAt(r, xs[..i], j) == LimitAt(r, xs, j) {
      assert xs[..i][..j] == xs[..j];
    }
    hide After, AllObserved, VoteAt;
    var last := After(r, xs[..i]).lastLimit;
    if last.Some? {
      var j :| 0 <= j < i && LimitAt(r, xs[..i], j) && xs[..i][j].stamp == last.value;
      assert LimitAt(r, xs, j);
    }
  }

  function Watched(d: Detector, xs: seq<Reading>): Detector {
    if xs == [] then d else Watched(d, xs[..|xs| - 1]).Observed(xs[|xs| - 1].value)
  }

  function AllWatched(strategies: seq<Detector>, xs: seq<Reading>): seq<Detector> {
    seq(|strategies|, k requires 0 <= k < |strategies| => Watched(strategies[k], xs))
  }

  /** Every detector sees every reading, whether or not alerts were raised or suppressed. */
  lemma {:induction false} DetectorsSeeEverything(r: Rule, xs: seq<Reading>)
    ensures After(r, xs).strategies == AllWatched(r.strategies, xs)
  {
    if xs != [] {
      DetectorsSeeEverything(r, xs[..|xs| - 1]);
      hide VoteFires, LimitFires;
    }
  }

  /** Which detectors, having seen the earlier readings, call the value anomalous. */
  ghost function Alarmed(strategies: seq<Detector>, earlier: seq<Reading>, value: real): set<nat> {
    set k: nat | k < |strategies| && Watched(strategies[k], earlier).Judged(value).isAnomaly
  }

  /** These names are those of the chosen detectors, in order. */
  ghost predicate NamesOf(names: seq<string>, strategies: seq<Detector>, chosen: set<nat>) {
    exists at: seq<nat> ::
      && |at| == |names| == |chosen|
      && (forall m | 0 <= m < |at| :: at[m] in chosen && at[m] < |strategies| && names[m] == strategies[at[m]].Name())
      && (forall m, n | 0 <= m < n < |at| :: at[m] < at[n])
  }

  /** The top score is that of some detector, or zero, and none is higher. */
  ghost predicate Highest(top: real, strategies: seq<Detector>, earlier: seq<Reading>, value: real) {
    && top >= 0.0
    && (forall k | 0 <= k < |strategies| :: Watched(strategies[k], earlier).Judged(value).scoreSquared <= top)
    && (top == 0.0 || exists k | 0 <= k < |strategies| ::
          Watched(strategies[k], earlier).Judged(value).scoreSquared == top)
  }

  lemma {:induction false} NameKept(d: Detector, xs: seq<Reading>)
    ensures Watched(d, xs).Name() == d.Name()
  {
    hide ZScore.Observed, Ewma.Observed, Cusum.Observed;
    if xs != [] { NameKept(d, xs[..|xs| - 1]); }
  }

  /** The voters are the alarmed detectors, by name and in order. */
  lemma {:induction false} VotersAre(strategies: seq<Detector>, earlier: seq<Reading>, value: real) returns (at: seq<nat>)
    ensures var names, chosen := Voters(AllWatched(strategies, earlier), value), Alarmed(strategies, earlier, value);
            && |at| == |names| == |chosen|
            && (forall m | 0 <= m < |at| :: at[m] in chosen && at[m] < |strategies| && names[m] == strategies[at[m]].Name())
            && (forall m, n | 0 <= m < n < |at| :: at[m] < at[n])
    decreases |strategies|
  {
    hide Detector.Judged, Detector.Name, Watched;
    at := [];
    if strategies == [] {
      assert Alarmed(strategies, earlier, value) == {};
    } else {
      var n := |strategies| - 1;
      var init, last := strategies[..n], Watched(strategies[n], earlier);
      at := VotersAre(init, earlier, value);
      var before := Alarmed(init, earlier, value);
      assert AllWatched(strategies, earlier)[..n] == AllWatched(init, earlier);
      NameKept(strategies[n], earlier);
      if last.Judged(value).isAnomaly {
        assert Alarmed(strategies, earlier, value) == before + {n};
        at := at + [n];
      } else {
        assert Alarmed(strategies, earlier, value) == before;
      }
    }
  }

  lemma {:induction false} TopIsHighest(strategies: seq<Detector>, earlier: seq<Reading>, value: real)
    ensures Highest(TopScore(AllWatched(strategies, earlier), value), strategies, earlier, value)
    decreases |strategies|
  {
    hide Detector.Judged, Watched;
    if strategies != [] {
      var n := |strategies| - 1;
      TopIsHighest(strategies[..n], earlier, value);
      assert AllWatched(strategies, earlier)[..n] == AllWatched(strategies[..n], earlier);
      var below, own := TopScore(AllWatched(strategies[..n], earlier), value),
                        Watched(strategies[n], earlier).Judged(value).scoreSquared;
      if below >= own && below != 0.0 {
        var k :| 0 <= k < n && Watched(strategies[..n][k], earlier).Judged(value).scoreSquared == below;
        assert Watched(strategies[k], earlier).Judged(value).scoreSquared == below;
      }
      forall k | 0 <= k < |strategies|
        ensures Watched(strategies[k], earlier).Judged(value).scoreSquared <= Cusum.Max(below, own)
      {
        if k < n { assert strategies[..n][k] == strategies[k]; }
      }
    }
  }

  /** A statistical alert is raised exactly when as many detectors as required, each having seen all
      earlier readings, call the value anomalous and every earlier statistical alert is at least a
      cooldown old. Limits play no part. */
  lemma VoteAlertsExactly(r: Rule, xs: seq<Reading>, i: nat)
    requires r.lastLimit.None? && r.lastStatistical.None? && i < |xs|
    ensures VoteAt(r, xs, i) <==>
              && r.strategies != []
              && |Alarmed(r.strategies, xs[..i], xs[i].value)| >= r.votesRequired
              && forall j | 0 <= j < i && VoteAt(r, xs, j) :: xs[i].stamp - xs[j].stamp >= r.cooldown
  {
    hide VoteAt, Voters, AllWatched, Alarmed;
    VoteByVoters(r, xs, i);
    var at := VotersAre(r.strategies, xs[..i], xs[i].value);
  }

  /** What the alert says: the reading, exactly the alarmed detectors in order, how many there are
      in all, and the highest score. */
  ghost predicate VoteAlertSays(strategies: seq<Detector>, earlier: seq<Reading>, x: Reading, a: Alert) {
    && a.StatisticalAlert? && a.value == x.value && a.stamp == x.stamp && a.total == |strategies|
    && NamesOf(a.voters, strategies, Alarmed(strategies, earlier, x.value))
    && Highest(a.scoreSquared, strategies, earlier, x.value)
  }

  /** What one reading raises: at most one alert of each kind, the limit alert first, saying this. */
  lemma AlertsSay(r: Rule, xs: seq<Reading>, i: nat)
    requires i < |xs|
    ensures var alerts := AlertsFor(After(r, xs[..i]), xs[i]);
            var limits, votes := if LimitAt(r, xs, i) then 1 else 0, if VoteAt(r, xs, i) then 1 else 0;
            && |alerts| == limits + votes
            && (LimitAt(r, xs, i) ==> LimitAlertSays(r.limits, xs[i], alerts[0]))
            && (VoteAt(r, xs, i) ==> VoteAlertSays(r.strategies, xs[..i], xs[i], alerts[limits]))
  {
    hide After, Alarmed, Highest, Voters, TopScore, AllWatched;
    SettingsKept(r, xs[..i]);
    DetectorsSeeEverything(r, xs[..i]);
    SideMeans(r.limits, xs[i].value);
    var at := VotersAre(r.strategies, xs[..i], xs[i].value);
    TopIsHighest(r.strategies, xs[..i], xs[i].value);
  }

  lemma VoteByVoters(r: Rule, xs: seq<Reading>, i: nat)
    requires r.lastLimit.None? && r.lastStatistical.None? && i < |xs|
    ensures VoteAt(r, xs, i) <==>
              && r.strategies != []
              && |Voters(AllWatched(r.strategies, xs[..i]), xs[i].value)| >= r.votesRequired
              && forall j | 0 <= j < i && VoteAt(r, xs, j) :: xs[i].stamp - xs[j].stamp >= r.cooldown
  {
    LastRemembered(r, xs[..i]);
    SettingsKept(r, xs[..i]);
    DetectorsSeeEverything(r, xs[..i]);
    forall j | 0 <= j < i ensures VoteAt(r, xs[..i], j) == VoteAt(r, xs, j) {
      assert xs[..i][..j] == xs[..j];
    }
    hide After, AllObserved, LimitAt, Voters, AllWatched;
    var last := After(r, xs[..i]).lastStatistical;
    if last.Some? {
      var j :| 0 <= j < i && VoteAt(r, xs[..i], j) && xs[..i][j].stamp == last.value;
      assert VoteAt(r, xs, j);
    }
  }

  /** Between two limit alerts on one side some reading is off that side. */
  lemma OffSideBetween(r: Rule, xs: seq<Reading>, i: nat, j: nat)
    requires r.side.Inside? && r.lastLimit.None? && r.lastStatistical.None? && i < j < |xs|
    requires LimitAt(r, xs, i) && LimitAt(r, xs, j) && SideAt(r, xs, i) == SideAt(r, xs, j)
    ensures exists k | i < k < j :: SideAt(r, xs, k) != SideAt(r, xs, i)
  {
    LimitBySides(r, xs, j);
    hide After, LimitAt, SideOf;
    assert SideAt(r, xs, j - 1) != SideAt(r, xs, i);
  }

  // ---------------------------------------------------------------------
  // How many alerts there can be
  // ---------------------------------------------------------------------

  /** The times of the limit alerts (or of the statistical ones) raised, in order. */
  function Stamps(alerts: seq<Alert>, limit: bool): seq<int> {
    if alerts == [] then []
    else
      var last := alerts[|alerts| - 1];
      Stamps(alerts[..|alerts| - 1], limit) + if last.LimitAlert? == limit then [last.stamp] else []
  }

  lemma {:induction false} StampsConcat(a: seq<Alert>, b: seq<Alert>, limit: bool)
    ensures Stamps(a + b, limit) == Stamps(a, limit) + Stamps(b, limit)
  {
    if b == [] {
      assert a + [] == a;
    } else {
      var init := b[..|b| - 1];
      StampsConcat(a, init, limit);
      assert (a + b)[..|a + b| - 1] == a + init;
    }
  }

  lemma StampsFor(r: Rule, x: Reading)
    ensures Stamps(AlertsFor(r, x), true) == if LimitFires(r, x) then [x.stamp] else []
    ensures Stamps(AlertsFor(r, x), false) == if VoteFires(r, x) then [x.stamp] else []
  {
    var limits := if LimitFires(r, x) then [LimitAlertFor(r.limits, x)] else [];
    var votes := if VoteFires(r, x) then [VoteAlertFor(r.strategies, x)] else [];
    StampsConcat(limits, votes, true);
    StampsConcat(limits, votes, false);
    hide LimitFires, VoteFires, TopScore, Voters;
    assert forall a: Alert :: [a][..0] == [];
  }

  ghost predicate Spaced(times: seq<int>, gap: nat) {
    forall i, j | 0 <= i < j < |times| :: times[j] - times[i] >= gap
  }

  ghost predicate Remembered(times: seq<int>, last: Option<int>, gap: nat) {
    Spaced(times, gap) && last == if times == [] then None else Some(times[|times| - 1])
  }

  lemma RememberedPush(times: seq<int>, last: Option<int>, gap: nat, stamp: int)
    requires Remembered(times, last, gap) && CooledDown(last, gap, stamp)
    ensures Remembered(times + [stamp], Some(stamp), gap)
  {
    var longer := times + [stamp];
    forall i, j | 0 <= i < j < |longer| ensures longer[j] - longer[i] >= gap {
      if j == |times| {
        assert longer[i] == times[i] && times[i] <= times[|times| - 1];
      }
    }
  }

  lemma LimitsSpacedStep(r: Rule, t: Rule, alerts: seq<Alert>, x: Reading)
    requires t.cooldown == r.cooldown && Remembered(Stamps(alerts, true), t.lastLimit, r.cooldown)
    ensures Remembered(Stamps(alerts + AlertsFor(t, x), true), Next(t, x).lastLimit, r.cooldown)
  {
    StampsConcat(alerts, AlertsFor(t, x), true);
    StampsFor(t, x);
    var limits := Stamps(alerts, true);
    if LimitFires(t, x) {
      RememberedPush(limits, t.lastLimit, r.cooldown, x.stamp);
    } else {
      assert limits + [] == limits;
    }
    hide AlertsFor, Stamps, AllObserved, Remembered, LimitFires, VoteFires;
  }

  lemma VotesSpacedStep(r: Rule, t: Rule, alerts: seq<Alert>, x: Reading)
    requires t.cooldown == r.cooldown && Remembered(Stamps(alerts, false), t.lastStatistical, r.cooldown)
    ensures Remembered(Stamps(alerts + AlertsFor(t, x), false), Next(t, x).lastStatistical, r.cooldown)
  {
    StampsConcat(alerts, AlertsFor(t, x), false);
    StampsFor(t, x);
    var votes := Stamps(alerts, false);
    if VoteFires(t, x) {
      RememberedPush(votes, t.lastStatistical, r.cooldown, x.stamp);
    } else {
      assert votes + [] == votes;
    }
    hide AlertsFor, Stamps, AllObserved, Remembered, LimitFires, VoteFires;
  }

  /** Alerts of one kind lie pairwise at least a cooldown apart, whatever the clock did. */
  lemma {:induction false} AlertsSpaced(r: Rule, xs: seq<Reading>)
    requires r.lastLimit.None? && r.lastStatistical.None?
    ensures Remembered(Stamps(Alerts(r, xs), true), After(r, xs).lastLimit, r.cooldown)
    ensures Remembered(Stamps(Alerts(r, xs), false), After(r, xs).lastStatistical, r.cooldown)
  {
    if xs != [] {
      var init, x := xs[..|xs| - 1], xs[|xs| - 1];
      AlertsSpaced(r, init);
      SettingsKept(r, init);
      LimitsSpacedStep(r, After(r, init), Alerts(r, init), x);
      VotesSpacedStep(r, After(r, init), Alerts(r, init), x);
      hide AlertsFor, Stamps, Remembered, Next;
    }
  }

  lemma {:induction false} SpacedApart(times: seq<int>, gap: nat, i: nat, j: nat)
    requires Spaced(times, gap) && i <= j < |times|
    ensures times[j] - times[i] >= (j - i) * gap
  {
    if i < j {
      SpacedApart(times, gap, i, j - 1);
      assert (j - i) * gap == (j - 1 - i) * gap + gap;
    }
  }

  /** Any window of length w holds at most w / cooldown + 1 alerts of one kind. */
  lemma WindowBound(r: Rule, xs: seq<Reading>, limit: bool, i: nat, j: nat, w: nat)
    requires r.lastLimit.None? && r.lastStatistical.None? && r.cooldown > 0
    requires i <= j < |Stamps(Alerts(r, xs), limit)|
    requires Stamps(Alerts(r, xs), limit)[j] - Stamps(Alerts(r, xs), limit)[i] <= w
    ensures j - i + 1 <= w / r.cooldown + 1
  {
    AlertsSpaced(r, xs);
    SpacedApart(Stamps(Alerts(r, xs), limit), r.cooldown, i, j);
    QuotientAtLeast(w, r.cooldown, j - i);
  }

  lemma QuotientAtLeast(w: nat, d: nat, n: nat)
    requires d > 0 && n * d <= w
    ensures n <= w / d
  {
    if n > w / d { PastQuotient(w, d, n); }
  }

  lemma PastQuotient(w: nat, d: nat, n: nat)
    requires d > 0 && n > w / d
    ensures n * d > w
  {
    assert n * d >= (w / d + 1) * d == w / d * d + d > w;
  }

  // ---------------------------------------------------------------------
  // Many sensors
  // ---------------------------------------------------------------------

  datatype Arrival = Arrival(sensor: string, reading: Reading)

  function Of(arrivals: seq<Arrival>, sensor: string): seq<Reading> {
    if arrivals == [] then []
    else
      var last := arrivals[|arrivals| - 1];
      Of(arrivals[..|arrivals| - 1], sensor) + if last.sensor == sensor then [last.reading] else []
  }

  function NextRules(rules: map<string, Rule>, a: Arrival): map<string, Rule> {
    if a.sensor in rules then rules[a.sensor := Next(rules[a.sensor], a.reading)] else rules
  }

  function AfterAll(rules: map<string, Rule>, arrivals: seq<Arrival>): map<string, Rule> {
    if arrivals == [] then rules
    else NextRules(AfterAll(rules, arrivals[..|arrivals| - 1]), arrivals[|arrivals| - 1])
  }

  function AlertsOf(rules: map<string, Rule>, arrivals: seq<Arrival>, sensor: string): seq<Alert> {
    if arrivals == [] then []
    else
      var init, last := arrivals[..|arrivals| - 1], arrivals[|arrivals| - 1];
      var rulesNow := AfterAll(rules, init);
      AlertsOf(rules, init, sensor)
      + if last.sensor == sensor && sensor in rulesNow then AlertsFor(rulesNow[sensor], last.reading) else []
  }

  lemma {:induction false} KeysKept(rules: map<string, Rule>, arrivals: seq<Arrival>)
    ensures AfterAll(rules, arrivals).Keys == rules.Keys
  {
    hide Next;
    if arrivals != [] { KeysKept(rules, arrivals[..|arrivals| - 1]); }
  }

  lemma RunPush(r: Rule, xs: seq<Reading>, x: Reading)
    ensures After(r, xs + [x]) == Next(After(r, xs), x)
    ensures Alerts(r, xs + [x]) == Alerts(r, xs) + AlertsFor(After(r, xs), x)
  {
    hide Next, AlertsFor;
    assert (xs + [x])[..|xs|] == xs;
  }

  lemma {:induction false} RulesIndependent(rules: map<string, Rule>, arrivals: seq<Arrival>, sensor: string)
    requires sensor in rules
    ensures sensor in AfterAll(rules, arrivals)
    ensures AfterAll(rules, arrivals)[sensor] == After(rules[sensor], Of(arrivals, sensor))
  {
    hide Next, After;
    KeysKept(rules, arrivals);
    if arrivals != [] {
      var init, last := arrivals[..|arrivals| - 1], arrivals[|arrivals| - 1];
      RulesIndependent(rules, init, sensor);
      RunPush(rules[sensor], Of(init, sensor), last.reading);
      assert Of(init, sensor) + [] == Of(init, sensor);
    } else {
      NoReadings(rules[sensor]);
    }
  }

  lemma NoReadings(r: Rule)
    ensures After(r, []) == r && Alerts(r, []) == []
  {}

  /** However the readings of many sensors interleave, each sensor's alerts are those of its own
      readings alone, and a sensor that is not registered raises none. */
  lemma {:induction false} SensorsIndependent(rules: map<string, Rule>, arrivals: seq<Arrival>, sensor: string)
    ensures AlertsOf(rules, arrivals, sensor)
         == if sensor in rules then Alerts(rules[sensor], Of(arrivals, sensor)) else []
  {
    hide Next, After, AlertsFor, Alerts;
    if arrivals != [] {
      var init, last := arrivals[..|arrivals| - 1], arrivals[|arrivals| - 1];
      SensorsIndependent(rules, init, sensor);
      KeysKept(rules, init);
      if sensor in rules {
        RulesIndependent(rules, init, sensor);
        RunPush(rules[sensor], Of(init, sensor), last.reading);
        assert Of(init, sensor) + [] == Of(init, sensor);
      }
      assert AlertsOf(rules, init, sensor) + [] == AlertsOf(rules, init, sensor);
    } else if sensor in rules {
      NoReadings(rules[sensor]);
    }
  }
}
