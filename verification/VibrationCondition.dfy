/** The gateway's condition service for one device: baseline learning, freezing and
    relearning, severity evaluation, and hysteresis of the reported state. */
module VibrationCondition {
  import opened Options
  import opened Reals
  import opened BaselineStatistics
  import Features

  datatype State = BASELINE_PENDING | INVALID | INSUFFICIENT_DATA | NORMAL | ELEVATED | SIGNIFICANT_CHANGE

  // ----- Severity -----

  /** The sample standard deviation of the learned windows. */
  function Spread(item: Stat, sqrt: real -> real): real {
    sqrt(Max(0.0, item.m2 / (if item.count >= 2 then (item.count - 1) as real else 1.0)))
  }

  /** The unit in which a feature's distance from its baseline mean is measured. */
  function Unit(f: Feature, item: Stat, binWidth: real, sqrt: real -> real): (r: real)
    ensures r >= Spread(item, sqrt) && r > 0.0
    ensures if f.kind == DominantFrequency then r >= binWidth else r >= Abs(item.mean) * 0.1
  {
    if f.kind == DominantFrequency then Max(Max(binWidth, Spread(item, sqrt)), 0.000001)
    else Max(Max(Spread(item, sqrt), Abs(item.mean) * 0.1),
             if f.kind in {AccelRms, AccelPeak, DominantAmplitude} then 0.001 else 0.05)
  }

  /** The spread of the statistics of n learned values is their sample standard
      deviation: its square times n - 1 is the sum of squared deviations from the mean. */
  lemma SpreadIsDeviation(v: seq<real>, sqrt: real -> real)
    requires |v| >= 2 && IsSqrt(sqrt)
    ensures var s := Spread(StatOf(v), sqrt);
      s >= 0.0 && s * s * (|v| as real - 1.0) == Features.SquareSum(v, Features.Mean(v))
  {
    hide Features.SquareSum, Features.Mean, MinOf, MaxOf, IsSqrt;
    SpreadOf(StatOf(v), sqrt);
  }

  lemma SpreadOf(item: Stat, sqrt: real -> real)
    requires item.count >= 2 && item.m2 >= 0.0 && IsSqrt(sqrt)
    ensures Spread(item, sqrt) >= 0.0 && Spread(item, sqrt) * Spread(item, sqrt) * (item.count as real - 1.0) == item.m2
  {
    var n := item.count as real - 1.0;
    QuotientNonNegative(item.m2, n);
    var variance := item.m2 / n;
    var s := sqrt(variance);
    assert s >= 0.0 && s * s == variance;
    assert variance * n == item.m2;
  }

  lemma QuotientNonNegative(a: real, n: real)
    requires a >= 0.0 && n > 0.0
    ensures a / n >= 0.0
  {
    var q := a / n;
    assert q * n == a;
    if q < 0.0 {
      MulLt(q, 0.0, n);
    }
  }

  /** A single learned value has no spread. */
  lemma SpreadOfOne(v: real, sqrt: real -> real)
    requires IsSqrt(sqrt)
    ensures Spread(StatOf([v]), sqrt) == 0.0
  {
    FirstValue(v);
    assert StatOf([v]) == Welford(Fresh(v), v);
    ZeroRoot(sqrt);
  }

  lemma ZeroRoot(sqrt: real -> real)
    requires IsSqrt(sqrt)
    ensures sqrt(0.0) == 0.0
  {
    SquareOrder(sqrt(0.0), 0.0);
  }

  /** The unit is the largest of the spread, a tenth of the mean (for a frequency: the
      bin width), and a fixed floor. */
  lemma UnitIsLargest(f: Feature, item: Stat, binWidth: real, sqrt: real -> real, k: real)
    ensures Unit(f, item, binWidth, sqrt) <= k <==>
      && Spread(item, sqrt) <= k
      && (match f.kind
          case DominantFrequency => binWidth <= k && 0.000001 <= k
          case AccelRms => Abs(item.mean) * 0.1 <= k && 0.001 <= k
          case AccelPeak => Abs(item.mean) * 0.1 <= k && 0.001 <= k
          case DominantAmplitude => Abs(item.mean) * 0.1 <= k && 0.001 <= k
          case Crest => Abs(item.mean) * 0.1 <= k && 0.05 <= k
          case KurtosisKind => Abs(item.mean) * 0.1 <= k && 0.05 <= k
          case GyroRms => Abs(item.mean) * 0.1 <= k && 0.05 <= k)
  {
  }

  function Deviation(f: Feature, current: real, item: Stat, binWidth: real, sqrt: real -> real): real {
    Abs(current - item.mean) / Unit(f, item, binWidth, sqrt)
  }

  /** A deviation of k is a distance of k units from the mean, on either side. */
  lemma DeviationIsDistance(f: Feature, current: real, item: Stat, binWidth: real, sqrt: real -> real, k: real)
    ensures Deviation(f, current, item, binWidth, sqrt) >= k <==>
      Abs(current - item.mean) >= k * Unit(f, item, binWidth, sqrt)
    ensures k > 0.0 ==>
      (Deviation(f, current, item, binWidth, sqrt) >= k <==>
         current >= item.mean + k * Unit(f, item, binWidth, sqrt) || current <= item.mean - k * Unit(f, item, binWidth, sqrt))
  {
    var u := Unit(f, item, binWidth, sqrt);
    ScaledOrder(Abs(current - item.mean) / u, k, u, Abs(current - item.mean));
    if k > 0.0 {
      ProductPositive(k, u, k * u);
    }
  }

  lemma ScaledOrder(q: real, k: real, u: real, a: real)
    requires u > 0.0 && q * u == a
    ensures q >= k <==> a >= k * u
  {
    if q >= k {
      MulLe(k, q, u);
    } else {
      MulLt(q, k, u);
    }
  }

  /** The change in percent is left out for a mean of (nearly) zero. */
  datatype Factor = Factor(feature: Feature, baseline: real, current: real, deviation: real, change: Option<real>)

  function FactorOf(f: Feature, mean: real, current: real, deviation: real): Factor {
    Factor(f, mean, current, deviation,
           if Abs(mean) > 0.000000001 then Some((current - mean) / mean * 100.0) else None)
  }

  datatype Evaluation = Evaluation(state: State, score: real, factors: seq<Factor>)

  function Classify(severity: real): State {
    if severity >= 6.0 then SIGNIFICANT_CHANGE else if severity >= 3.0 then ELEVATED else NORMAL
  }

  function Score(severity: real): (r: real)
    ensures 0.0 <= r <= 100.0
  {
    Max(0.0, Min(100.0, 100.0 - severity * 10.0))
  }

  /** The deviations of the first n features. */
  function Severity(values: Values, statistics: Statistics, binWidth: real, sqrt: real -> real, n: nat): real
    requires n <= |FEATURES| && forall f: Feature :: f in statistics
  {
    if n == 0 then 0.0
    else
      var f := FEATURES[n - 1];
      Max(Severity(values, statistics, binWidth, sqrt, n - 1), Deviation(f, values(f), statistics[f], binWidth, sqrt))
  }

  /** The factors among the first n features: deviation at least 2. */
  function Factors(values: Values, statistics: Statistics, binWidth: real, sqrt: real -> real, n: nat): seq<Factor>
    requires n <= |FEATURES| && forall f: Feature :: f in statistics
  {
    if n == 0 then []
    else
      var f := FEATURES[n - 1];
      var d := Deviation(f, values(f), statistics[f], binWidth, sqrt);
      Factors(values, statistics, binWidth, sqrt, n - 1)
      + (if d >= 2.0 then [FactorOf(f, statistics[f].mean, values(f), d)] else [])
  }

  /** Stable insertion into a list sorted by descending deviation. */
  function InsertFactor(s: seq<Factor>, x: Factor): seq<Factor> {
    if s == [] || s[|s| - 1].deviation >= x.deviation then s + [x]
    else InsertFactor(s[..|s| - 1], x) + [s[|s| - 1]]
  }

  function SortFactors(s: seq<Factor>): seq<Factor> {
    if s == [] then [] else InsertFactor(SortFactors(s[..|s| - 1]), s[|s| - 1])
  }

  function Take5(s: seq<Factor>): seq<Factor> {
    if |s| <= 5 then s else s[..5]
  }

  function Evaluate(values: Values, statistics: Statistics, binWidth: real, sqrt: real -> real): Evaluation
    requires forall f: Feature :: f in statistics
  {
    var severity := Severity(values, statistics, binWidth, sqrt, |FEATURES|);
    Evaluation(Classify(severity), Score(severity),
               Take5(SortFactors(Factors(values, statistics, binWidth, sqrt, |FEATURES|))))
  }

  method EvaluateCondition(values: Values, statistics: Statistics, binWidth: real, sqrt: real -> real) returns (r: Evaluation)
    requires forall f: Feature :: f in statistics
    ensures r == Evaluate(values, statistics, binWidth, sqrt)
  {
    hide Deviation, SortFactors;
    var severity := 0.0;
    var factors: seq<Factor> := [];
    for i := 0 to |FEATURES|
      invariant severity == Severity(values, statistics, binWidth, sqrt, i)
      invariant factors == Factors(values, statistics, binWidth, sqrt, i)
    {
      var f := FEATURES[i];
      var d := Deviation(f, values(f), statistics[f], binWidth, sqrt);
      if d >= 2.0 {
        factors := factors + [FactorOf(f, statistics[f].mean, values(f), d)];
      }
      severity := Max(severity, d);
    }
    r := Evaluation(Classify(severity), Score(severity), Take5(SortFactors(factors)));
  }

  lemma {:induction false} SeverityBounds(values: Values, statistics: Statistics, binWidth: real, sqrt: real -> real,
                                          n: nat, limit: real)
    requires n <= |FEATURES| && (forall f: Feature :: f in statistics) && limit > 0.0
    ensures Severity(values, statistics, binWidth, sqrt, n) >= limit <==>
      exists i :: 0 <= i < n && Deviation(FEATURES[i], values(FEATURES[i]), statistics[FEATURES[i]], binWidth, sqrt) >= limit
    decreases n
  {
    hide Deviation;
    if n > 0 {
      SeverityBounds(values, statistics, binWidth, sqrt, n - 1, limit);
    }
  }

  /** The state reports the worst feature: significant at 6, elevated at 3. */
  lemma StateReportsWorstFeature(values: Values, statistics: Statistics, binWidth: real, sqrt: real -> real)
    requires forall f: Feature :: f in statistics
    ensures var state := Evaluate(values, statistics, binWidth, sqrt).state;
      && (state == SIGNIFICANT_CHANGE <==>
            exists f: Feature :: Deviation(f, values(f), statistics[f], binWidth, sqrt) >= 6.0)
      && (state == NORMAL <==>
            forall f: Feature :: Deviation(f, values(f), statistics[f], binWidth, sqrt) < 3.0)
      && state in {SIGNIFICANT_CHANGE, ELEVATED, NORMAL}
  {
    hide Deviation, SortFactors, Severity;
    SomeFeatureExceeds(values, statistics, binWidth, sqrt, 6.0);
    SomeFeatureExceeds(values, statistics, binWidth, sqrt, 3.0);
  }

  lemma SomeFeatureExceeds(values: Values, statistics: Statistics, binWidth: real, sqrt: real -> real, limit: real)
    requires (forall f: Feature :: f in statistics) && limit > 0.0
    ensures Severity(values, statistics, binWidth, sqrt, |FEATURES|) >= limit <==>
      exists f: Feature :: Deviation(f, values(f), statistics[f], binWidth, sqrt) >= limit
  {
    hide Deviation, Severity;
    SeverityBounds(values, statistics, binWidth, sqrt, |FEATURES|, limit);
    if f: Feature :| Deviation(f, values(f), statistics[f], binWidth, sqrt) >= limit {
      FeaturesComplete(f);
      var i :| 0 <= i < |FEATURES| && FEATURES[i] == f;
    }
  }

  /** The similarity score tells the same story as the state: at most 40 when
      significant, above 70 when normal, and 100 exactly without any deviation. */
  lemma ScoreAgreesWithState(values: Values, statistics: Statistics, binWidth: real, sqrt: real -> real)
    requires forall f: Feature :: f in statistics
    ensures var e := Evaluate(values, statistics, binWidth, sqrt);
      && (e.state == SIGNIFICANT_CHANGE <==> e.score <= 40.0) && (e.state == NORMAL <==> e.score > 70.0)
      && (e.score == 100.0 <==> forall f: Feature :: values(f) == statistics[f].mean)
  {
    hide Deviation, SortFactors, Severity;
    SeverityNonNegative(values, statistics, binWidth, sqrt, |FEATURES|);
    var severity := Severity(values, statistics, binWidth, sqrt, |FEATURES|);
    if severity > 0.0 {
      SomeFeatureExceeds(values, statistics, binWidth, sqrt, severity);
      var f: Feature :| Deviation(f, values(f), statistics[f], binWidth, sqrt) >= severity;
      ZeroDeviation(f, values(f), statistics[f], binWidth, sqrt);
    } else {
      forall f: Feature
        ensures values(f) == statistics[f].mean
      {
        var d := Deviation(f, values(f), statistics[f], binWidth, sqrt);
        ZeroDeviation(f, values(f), statistics[f], binWidth, sqrt);
        if d > 0.0 {
          SomeFeatureExceeds(values, statistics, binWidth, sqrt, d);
        }
      }
    }
  }

  lemma ZeroDeviation(f: Feature, current: real, item: Stat, binWidth: real, sqrt: real -> real)
    ensures Deviation(f, current, item, binWidth, sqrt) >= 0.0
    ensures Deviation(f, current, item, binWidth, sqrt) > 0.0 <==> current != item.mean
  {
    var u := Unit(f, item, binWidth, sqrt);
    var a := Abs(current - item.mean);
    assert a / u * u == a;
  }

  lemma {:induction false} SeverityNonNegative(values: Values, statistics: Statistics, binWidth: real, sqrt: real -> real, n: nat)
    requires n <= |FEATURES| && forall f: Feature :: f in statistics
    ensures Severity(values, statistics, binWidth, sqrt, n) >= 0.0
    decreases n
  {
    hide Deviation;
    if n > 0 {
      SeverityNonNegative(values, statistics, binWidth, sqrt, n - 1);
    }
  }

  /** The score falls by 10 for every unit of the worst deviation, down to 0. */
  lemma ScoreOfWorst(values: Values, statistics: Statistics, binWidth: real, sqrt: real -> real, worst: Feature)
    requires forall f: Feature :: f in statistics
    requires forall f: Feature ::
      Deviation(f, values(f), statistics[f], binWidth, sqrt)
      <= Deviation(worst, values(worst), statistics[worst], binWidth, sqrt)
    ensures var d := Deviation(worst, values(worst), statistics[worst], binWidth, sqrt);
      Evaluate(values, statistics, binWidth, sqrt).score == if d >= 10.0 then 0.0 else 100.0 - 10.0 * d
  {
    hide Deviation, SortFactors, Severity;
    var d := Deviation(worst, values(worst), statistics[worst], binWidth, sqrt);
    var severity := Severity(values, statistics, binWidth, sqrt, |FEATURES|);
    ZeroDeviation(worst, values(worst), statistics[worst], binWidth, sqrt);
    SeverityNonNegative(values, statistics, binWidth, sqrt, |FEATURES|);
    if d > 0.0 {
      SomeFeatureExceeds(values, statistics, binWidth, sqrt, d);
    }
    if severity > 0.0 {
      SomeFeatureExceeds(values, statistics, binWidth, sqrt, severity);
    }
  }

  /** The factor of one feature: its baseline mean, its value, its deviation, and the
      change in percent of the mean unless the mean is (nearly) zero. */
  ghost predicate IsFactor(x: Factor, values: Values, statistics: Statistics, binWidth: real, sqrt: real -> real)
    requires forall f: Feature :: f in statistics
  {
    var mean, current := statistics[x.feature].mean, values(x.feature);
    && x.baseline == mean && x.current == current
    && x.deviation == Deviation(x.feature, current, statistics[x.feature], binWidth, sqrt) && x.deviation >= 2.0
    && (x.change.Some? <==> mean > 0.000000001 || mean < -0.000000001)
    && (x.change.Some? ==> x.change.value * mean == (current - mean) * 100.0)
  }

  lemma FactorOfMeans(f: Feature, mean: real, current: real, deviation: real)
    ensures var x := FactorOf(f, mean, current, deviation);
      && x.feature == f && x.baseline == mean && x.current == current && x.deviation == deviation
      && (x.change.Some? <==> mean > 0.000000001 || mean < -0.000000001)
      && (x.change.Some? ==> x.change.value * mean == (current - mean) * 100.0)
  {
    if Abs(mean) > 0.000000001 {
      PercentOf(current - mean, mean);
    }
  }

  lemma PercentOf(d: real, mean: real)
    requires mean != 0.0
    ensures d / mean * 100.0 * mean == d * 100.0
  {
    var q := d / mean;
    assert q * mean == d;
    assert q * 100.0 * mean == q * mean * 100.0;
  }

  /** Each factor has the numbers of its own feature, one of the first n, and they are
      in the order of the list. */
  ghost predicate SoundFactors(s: seq<Factor>, values: Values, statistics: Statistics, binWidth: real, sqrt: real -> real, n: nat)
    requires forall f: Feature :: f in statistics
  {
    && (forall i :: 0 <= i < |s| ==> IsFactor(s[i], values, statistics, binWidth, sqrt) && Code(s[i].feature) < n)
    && (forall i, j :: 0 <= i < j < |s| ==> Code(s[i].feature) < Code(s[j].feature))
  }

  lemma SoundStep(s: seq<Factor>, x: Factor, values: Values, statistics: Statistics, binWidth: real, sqrt: real -> real, n: nat)
    requires forall f: Feature :: f in statistics
    requires SoundFactors(s, values, statistics, binWidth, sqrt, n)
    ensures SoundFactors(s, values, statistics, binWidth, sqrt, n + 1)
    ensures IsFactor(x, values, statistics, binWidth, sqrt) && Code(x.feature) == n ==>
      SoundFactors(s + [x], values, statistics, binWidth, sqrt, n + 1)
  {
    hide IsFactor, Code;
  }

  lemma {:induction false} FactorsSound(values: Values, statistics: Statistics, binWidth: real, sqrt: real -> real, n: nat)
    requires n <= |FEATURES| && forall f: Feature :: f in statistics
    ensures SoundFactors(Factors(values, statistics, binWidth, sqrt, n), values, statistics, binWidth, sqrt, n)
    decreases n
  {
    if n > 0 {
      FactorsSound(values, statistics, binWidth, sqrt, n - 1);
      var f := FEATURES[n - 1];
      FeatureCode(n - 1);
      var d := Deviation(f, values(f), statistics[f], binWidth, sqrt);
      hide Deviation, Code, FactorOf, IsFactor, SoundFactors;
      if d >= 2.0 {
        DeviantIsFactor(values, statistics, binWidth, sqrt, f);
      }
      SoundStep(Factors(values, statistics, binWidth, sqrt, n - 1), FactorOf(f, statistics[f].mean, values(f), d),
                values, statistics, binWidth, sqrt, n - 1);
      assert Factors(values, statistics, binWidth, sqrt, n - 1) + [] == Factors(values, statistics, binWidth, sqrt, n - 1);
    }
  }

  lemma DeviantIsFactor(values: Values, statistics: Statistics, binWidth: real, sqrt: real -> real, f: Feature)
    requires forall f: Feature :: f in statistics
    requires Deviation(f, values(f), statistics[f], binWidth, sqrt) >= 2.0
    ensures var x := FactorOf(f, statistics[f].mean, values(f), Deviation(f, values(f), statistics[f], binWidth, sqrt));
      x.feature == f && IsFactor(x, values, statistics, binWidth, sqrt)
  {
    hide Deviation, FactorOf;
    FactorOfMeans(f, statistics[f].mean, values(f), Deviation(f, values(f), statistics[f], binWidth, sqrt));
  }

  ghost predicate Listed(s: seq<Factor>, f: Feature) {
    exists k :: 0 <= k < |s| && s[k].feature == f
  }

  lemma ListedLater(s: seq<Factor>, t: seq<Factor>, f: Feature)
    requires Listed(s, f)
    ensures Listed(s + t, f)
  {
    var k :| 0 <= k < |s| && s[k].feature == f;
    assert (s + t)[k].feature == f;
  }

  /** Every feature that deviates by at least 2 is among the factors. */
  lemma {:induction false} FactorsComplete(values: Values, statistics: Statistics, binWidth: real, sqrt: real -> real,
                                           n: nat, i: nat)
    requires i < n <= |FEATURES| && forall f: Feature :: f in statistics
    requires Deviation(FEATURES[i], values(FEATURES[i]), statistics[FEATURES[i]], binWidth, sqrt) >= 2.0
    ensures Listed(Factors(values, statistics, binWidth, sqrt, n), FEATURES[i])
    decreases n
  {
    hide Deviation, FactorOf, Listed;
    var f := FEATURES[n - 1];
    var before := Factors(values, statistics, binWidth, sqrt, n - 1);
    if i < n - 1 {
      FactorsComplete(values, statistics, binWidth, sqrt, n - 1, i);
      ListedLater(before, Factors(values, statistics, binWidth, sqrt, n)[|before|..], FEATURES[i]);
    } else {
      LastListed(before, FactorOf(f, statistics[f].mean, values(f), Deviation(f, values(f), statistics[f], binWidth, sqrt)));
      FactorOfMeans(f, statistics[f].mean, values(f), Deviation(f, values(f), statistics[f], binWidth, sqrt));
    }
  }

  lemma LastListed(s: seq<Factor>, x: Factor)
    ensures Listed(s + [x], x.feature)
  {
    assert (s + [x])[|s|] == x;
  }

  /** The factors among all features: exactly those that deviate by at least 2. */
  lemma FactorsAreDeviants(values: Values, statistics: Statistics, binWidth: real, sqrt: real -> real, f: Feature)
    requires forall f: Feature :: f in statistics
    ensures Listed(Factors(values, statistics, binWidth, sqrt, |FEATURES|), f)
       <==> Deviation(f, values(f), statistics[f], binWidth, sqrt) >= 2.0
  {
    hide Deviation, Factors;
    FactorsSound(values, statistics, binWidth, sqrt, |FEATURES|);
    if Deviation(f, values(f), statistics[f], binWidth, sqrt) >= 2.0 {
      FeaturesComplete(f);
      var i :| 0 <= i < |FEATURES| && FEATURES[i] == f;
      FactorsComplete(values, statistics, binWidth, sqrt, |FEATURES|, i);
    }
  }

  ghost predicate Descending(s: seq<Factor>) {
    forall i, j :: 0 <= i < j < |s| ==> s[i].deviation >= s[j].deviation
  }

  lemma {:induction false} InsertFactorPermutes(s: seq<Factor>, x: Factor)
    ensures multiset(InsertFactor(s, x)) == multiset(s) + multiset{x}
    decreases |s|
  {
    if s != [] && s[|s| - 1].deviation < x.deviation {
      InsertFactorPermutes(s[..|s| - 1], x);
      assert s == s[..|s| - 1] + [s[|s| - 1]];
    }
  }

  lemma {:induction false} InsertFactorSorts(s: seq<Factor>, x: Factor)
    requires Descending(s)
    ensures Descending(InsertFactor(s, x))
    decreases |s|
  {
    if s != [] && s[|s| - 1].deviation < x.deviation {
      var u, last := s[..|s| - 1], s[|s| - 1];
      InsertFactorSorts(u, x);
      InsertFactorPermutes(u, x);
      AllAtLeast(InsertFactor(u, x), u, x, last.deviation);
    }
  }

  lemma AllAtLeast(t: seq<Factor>, u: seq<Factor>, x: Factor, bound: real)
    requires multiset(t) == multiset(u) + multiset{x} && x.deviation >= bound
    requires forall i :: 0 <= i < |u| ==> u[i].deviation >= bound
    ensures forall i :: 0 <= i < |t| ==> t[i].deviation >= bound
  {
    forall i | 0 <= i < |t|
      ensures t[i].deviation >= bound
    {
      assert t[i] in multiset(t);
      assert t[i] in multiset(u) || t[i] == x;
    }
  }

  lemma {:induction false} SortFactorsSorts(s: seq<Factor>)
    ensures Descending(SortFactors(s)) && multiset(SortFactors(s)) == multiset(s)
    decreases |s|
  {
    if s != [] {
      var u := s[..|s| - 1];
      SortFactorsSorts(u);
      InsertFactorSorts(SortFactors(u), s[|s| - 1]);
      InsertFactorPermutes(SortFactors(u), s[|s| - 1]);
      assert s == u + [s[|s| - 1]];
    }
  }

  /** shown and hidden together are all, and nothing hidden exceeds anything shown. */
  ghost predicate WorstOf(all: seq<Factor>, shown: seq<Factor>, hidden: seq<Factor>) {
    && multiset(all) == multiset(shown) + multiset(hidden)
    && forall i, j :: 0 <= i < |shown| && 0 <= j < |hidden| ==> shown[i].deviation >= hidden[j].deviation
  }

  /** The reported factors are the worst ones, worst first, at most five. */
  lemma ReportsWorstFactors(values: Values, statistics: Statistics, binWidth: real, sqrt: real -> real)
    requires forall f: Feature :: f in statistics
    ensures var all := Factors(values, statistics, binWidth, sqrt, |FEATURES|);
      var shown := Evaluate(values, statistics, binWidth, sqrt).factors;
      && Descending(shown) && |shown| == (if |all| <= 5 then |all| else 5)
      && exists hidden: seq<Factor> :: WorstOf(all, shown, hidden)
  {
    hide Deviation, Factors, SortFactors;
    var all := Factors(values, statistics, binWidth, sqrt, |FEATURES|);
    SortFactorsSorts(all);
    var sorted := SortFactors(all);
    assert |multiset(sorted)| == |sorted| && |multiset(all)| == |all|;
    var shown := Take5(sorted);
    var hidden := sorted[|shown|..];
    assert sorted == shown + hidden;
    assert WorstOf(all, shown, hidden);
  }

  // ----- Records -----

  /** A measured value, or an infinity or not-a-number. */
  datatype Measured = Finite(value: real) | NonFinite

  datatype Window = Window(session: string, sequence: nat, valid: bool, rate: real, values: Feature -> Measured)

  type Scope = Option<string>

  datatype Baseline = Baseline(
    version: nat, building: bool, sampleCount: nat, minimum: int, statistics: Statistics,
    lastSession: Option<string>, lastSequence: Option<nat>, lastRelearn: Option<string>)

  datatype Condition = Condition(
    scope: Scope, state: State, pendingState: Option<State>, pendingCount: nat, score: Option<real>, factors: seq<Factor>)

  datatype Superseded = Superseded(scope: Scope, version: nat, sampleCount: nat, statistics: Statistics)

  datatype Gateway = Gateway(baselines: map<Scope, Baseline>, condition: Option<Condition>, history: seq<Superseded>)

  const EMPTY := Gateway(map[], None, [])

  datatype Settings = Settings(minimumWindows: int, persistenceWindows: int, sqrt: real -> real)

  function NewBaseline(minimum: int): Baseline {
    Baseline(1, true, 0, minimum, map[], None, None, None)
  }

  function BaselineFor(g: Gateway, scope: Scope, minimum: int): Baseline {
    if scope in g.baselines then g.baselines[scope] else NewBaseline(minimum)
  }

  function ConditionFor(g: Gateway, scope: Scope): Condition {
    match g.condition
    case Some(c) => c.(scope := scope)
    case None => Condition(scope, BASELINE_PENDING, None, 0, None, [])
  }

  predicate IsDuplicate(b: Baseline, w: Window) {
    b.lastSession == Some(w.session) && b.lastSequence == Some(w.sequence)
  }

  predicate Eligible(w: Window) {
    w.valid && forall f :: f in FEATURES ==> w.values(f).Finite?
  }

  function ValuesOf(w: Window): Values {
    (f: Feature) => match w.values(f) case Finite(v) => v case NonFinite => 0.0
  }

  /** A baseline whose statistics can be evaluated against. */
  predicate Complete(b: Baseline) {
    b.building || forall f :: f in FEATURES ==> f in b.statistics
  }

  // ----- One window -----

  function NextBaseline(b: Baseline, w: Window): Baseline {
    var seen := b.(lastSession := Some(w.session), lastSequence := Some(w.sequence));
    if Eligible(w) && b.building then
      seen.(statistics := Updated(b.statistics, ValuesOf(w)), sampleCount := b.sampleCount + 1,
            building := b.sampleCount + 1 < b.minimum)
    else seen
  }

  datatype Proposal = Proposal(state: State, score: Option<real>, factors: seq<Factor>)

  lemma CompleteStatistics(b: Baseline)
    requires Complete(b) && !b.building
    ensures forall f: Feature :: f in b.statistics
  {
    forall f: Feature
      ensures f in b.statistics
    {
      FeaturesComplete(f);
    }
  }

  function Propose(b: Baseline, w: Window, sqrt: real -> real): Proposal
    requires Complete(b)
  {
    if Eligible(w) && b.building then
      if b.sampleCount + 1 >= b.minimum then Proposal(NORMAL, Some(100.0), []) else Proposal(BASELINE_PENDING, None, [])
    else if Eligible(w) then
      CompleteStatistics(b);
      var e := Evaluate(ValuesOf(w), b.statistics, w.rate / 256.0, sqrt);
      Proposal(e.state, Some(e.score), e.factors)
    else if b.sampleCount == 0 then Proposal(INSUFFICIENT_DATA, None, [])
    else Proposal(INVALID, None, [])
  }

  /** A window is usable when the node calls it valid and every feature is finite. */
  ghost predicate Usable(w: Window) {
    w.valid && forall f: Feature :: w.values(f).Finite?
  }

  /** What one window does, by the window and the baseline it meets. An unusable window
      teaches nothing; a usable one is learned while the baseline is building and is
      evaluated, with its own measured values, once it is frozen. */
  lemma WindowOutcome(b: Baseline, w: Window, sqrt: real -> real)
    requires Complete(b)
    ensures var next, p := NextBaseline(b, w), Propose(b, w, sqrt);
      && next.lastSession == Some(w.session) && next.lastSequence == Some(w.sequence) && next.version == b.version
      && (!Usable(w) ==>
            && next.statistics == b.statistics && next.sampleCount == b.sampleCount && next.building == b.building
            && p == Proposal(if b.sampleCount == 0 then INSUFFICIENT_DATA else INVALID, None, []))
      && (Usable(w) && b.building ==>
            && next.sampleCount == b.sampleCount + 1 && (next.building <==> b.sampleCount + 1 < b.minimum)
            && (forall f: Feature :: f in next.statistics
                  && next.statistics[f] == Welford(Item(b.statistics, f, w.values(f).value), w.values(f).value))
            && p == (if next.building then Proposal(BASELINE_PENDING, None, []) else Proposal(NORMAL, Some(100.0), [])))
      && (Usable(w) && !b.building ==>
            && next.statistics == b.statistics && next.sampleCount == b.sampleCount && !next.building
            && (forall f: Feature :: f in b.statistics)
            && p.state == Classify(Severity(ValuesOf(w), b.statistics, w.rate / 256.0, sqrt, |FEATURES|))
            && forall f: Feature :: ValuesOf(w)(f) == w.values(f).value)
  {
    hide Welford, Severity, Factors, SortFactors;
    UsableIsEligible(w);
    if b.building {
      forall f: Feature
        ensures f in FEATURES
      {
        FeaturesComplete(f);
      }
    } else {
      CompleteStatistics(b);
    }
  }

  lemma UsableIsEligible(w: Window)
    ensures Usable(w) <==> Eligible(w)
  {
    forall f: Feature
      ensures f in FEATURES
    {
      FeaturesComplete(f);
    }
  }

  predicate Immediate(s: State) {
    s in {INVALID, BASELINE_PENDING, INSUFFICIENT_DATA}
  }

  /** The hysteresis step: three states apply at once, the others must persist. */
  function Advance(c: Condition, p: Proposal, threshold: int): Condition {
    var shown := c.(score := p.score, factors := p.factors);
    if Immediate(p.state) then shown.(state := p.state, pendingState := None, pendingCount := 0)
    else if p.state == c.state then shown.(pendingState := None, pendingCount := 0)
    else
      var count := if c.pendingState == Some(p.state) then c.pendingCount + 1 else 1;
      if count >= threshold || (c.state == BASELINE_PENDING && p.state == NORMAL)
      then shown.(state := p.state, pendingState := None, pendingCount := 0)
      else shown.(pendingState := Some(p.state), pendingCount := count)
  }

  function Process(g: Gateway, scope: Scope, w: Window, settings: Settings): (r: Gateway)
    requires Complete(BaselineFor(g, scope, settings.minimumWindows))
  {
    var b := BaselineFor(g, scope, settings.minimumWindows);
    if IsDuplicate(b, w) then g
    else
      g.(baselines := g.baselines[scope := NextBaseline(b, w)],
         condition := Some(Advance(ConditionFor(g, scope), Propose(b, w, settings.sqrt), settings.persistenceWindows)))
  }

  // ----- Relearning -----

  /** A repeated request changes nothing. */
  predicate RepeatedRequest(b: Baseline, request: Option<string>) {
    request.Some? && request.value != "" && b.lastRelearn == request
  }

  function Relearn(g: Gateway, request: Option<string>): (r: Gateway)
    requires g.condition.Some? ==> g.condition.value.scope in g.baselines
  {
    match g.condition
    case None => g
    case Some(c) =>
      var b := g.baselines[c.scope];
      if RepeatedRequest(b, request) then g
      else
        Gateway(g.baselines[c.scope := Baseline(b.version + 1, true, 0, b.minimum, map[], None, None, request)],
                Some(Condition(c.scope, BASELINE_PENDING, None, 0, None, [])),
                g.history + [Superseded(c.scope, b.version, b.sampleCount, b.statistics)])
  }

  // ----- The service object -----

  datatype Outcome = Unavailable | Duplicate(state: State) | Processed(condition: Condition)

  class VibrationConditionService {
    const minimumWindows: int
    const persistenceWindows: int
    const sqrt: real -> real
    var baselines: map<Scope, Baseline>
    var condition: Option<Condition>
    var history: seq<Superseded>

    ghost function View(): Gateway
      reads this
    {
      Gateway(baselines, condition, history)
    }

    ghost predicate Valid()
      reads this
    {
      && (forall s :: s in baselines ==> Complete(baselines[s]))
      && (condition.Some? ==> condition.value.scope in baselines)
      && (condition.None? ==> baselines == map[])
    }

    constructor (minimumWindows: int, persistenceWindows: int, sqrt: real -> real)
      ensures Valid() && View() == EMPTY
      ensures this.minimumWindows == minimumWindows && this.persistenceWindows == persistenceWindows && this.sqrt == sqrt
    {
      this.minimumWindows, this.persistenceWindows, this.sqrt := minimumWindows, persistenceWindows, sqrt;
      baselines, condition, history := map[], None, [];
    }

    method ProcessWindow(available: bool, scope: Scope, w: Window) returns (outcome: Outcome)
      requires Valid()
      modifies this
      ensures Valid()
      ensures !available ==> outcome == Unavailable && View() == old(View())
      ensures available ==>
        && Complete(BaselineFor(old(View()), scope, minimumWindows))
        && View() == Process(old(View()), scope, w, Settings(minimumWindows, persistenceWindows, sqrt))
        && (outcome.Duplicate? <==> IsDuplicate(BaselineFor(old(View()), scope, minimumWindows), w))
        && (outcome.Processed? ==> condition == Some(outcome.condition))
    {
      hide Propose, NextBaseline, Advance, Complete;
      if !available {
        return Unavailable;
      }
      NewComplete(minimumWindows);
      var baseline := if scope in baselines then baselines[scope] else NewBaseline(minimumWindows);
      var current := match condition
        case Some(c) => c.(scope := scope)
        case None => Condition(scope, BASELINE_PENDING, None, 0, None, []);
      if baseline.lastSession == Some(w.session) && baseline.lastSequence == Some(w.sequence) {
        return Duplicate(current.state);
      }
      UpdatedComplete(baseline, w);
      var learned, proposal := Learn(baseline, w);
      var next := Settle(current, proposal);
      AdvanceKeepsScope(current, proposal, persistenceWindows);
      baselines := baselines[scope := learned];
      condition := Some(next);
      outcome := Processed(next);
    }

    /** The baseline after the window, and the state the window proposes. */
    method Learn(b: Baseline, w: Window) returns (baseline: Baseline, proposal: Proposal)
      requires Complete(b)
      ensures baseline == NextBaseline(b, w) && proposal == Propose(b, w, sqrt)
    {
      hide Evaluate, Updated;
      baseline := b.(lastSession := Some(w.session), lastSequence := Some(w.sequence));
      var eligible := Eligible(w);
      var values := ValuesOf(w);
      proposal := Proposal(INVALID, None, []);
      if eligible && baseline.building {
        var statistics := UpdateStatistics(baseline.statistics, values);
        baseline := baseline.(statistics := statistics, sampleCount := baseline.sampleCount + 1);
        if baseline.sampleCount >= baseline.minimum {
          baseline := baseline.(building := false);
          proposal := Proposal(NORMAL, Some(100.0), []);
        } else {
          proposal := Proposal(BASELINE_PENDING, None, []);
        }
      } else if eligible {
        CompleteStatistics(b);
        var e := EvaluateCondition(values, baseline.statistics, w.rate / 256.0, sqrt);
        proposal := Proposal(e.state, Some(e.score), e.factors);
      } else if baseline.sampleCount == 0 {
        proposal := Proposal(INSUFFICIENT_DATA, None, []);
      }
    }

    /** The hysteresis bookkeeping. */
    method Settle(current: Condition, p: Proposal) returns (next: Condition)
      ensures next == Advance(current, p, persistenceWindows)
    {
      next := current.(score := p.score, factors := p.factors);
      if p.state in {INVALID, BASELINE_PENDING, INSUFFICIENT_DATA} {
        next := next.(state := p.state, pendingState := None, pendingCount := 0);
      } else if p.state == current.state {
        next := next.(pendingState := None, pendingCount := 0);
      } else {
        if next.pendingState == Some(p.state) {
          next := next.(pendingCount := next.pendingCount + 1);
        } else {
          next := next.(pendingState := Some(p.state), pendingCount := 1);
        }
        if next.pendingCount >= persistenceWindows || (next.state == BASELINE_PENDING && p.state == NORMAL) {
          next := next.(state := p.state, pendingState := None, pendingCount := 0);
        }
      }
    }

    method RelearnBaseline(request: Option<string>) returns (found: bool)
      requires Valid()
      modifies this
      ensures Valid() && found == old(condition).Some? && View() == Relearn(old(View()), request)
    {
      if condition.None? {
        return false;
      }
      var c := condition.value;
      var b := baselines[c.scope];
      if request.Some? && request.value != "" && b.lastRelearn == request {
        return true;
      }
      history := history + [Superseded(c.scope, b.version, b.sampleCount, b.statistics)];
      b := b.(version := b.version + 1, building := true, sampleCount := 0, statistics := map[],
              lastSession := None, lastSequence := None, lastRelearn := request);
      baselines := baselines[c.scope := b];
      condition := Some(Condition(c.scope, BASELINE_PENDING, None, 0, None, []));
      return true;
    }
  }

  lemma AdvanceKeepsScope(c: Condition, p: Proposal, threshold: int)
    ensures Advance(c, p, threshold).scope == c.scope
  {
  }

  lemma NewComplete(minimum: int)
    ensures Complete(NewBaseline(minimum))
  {
  }

  lemma UpdatedComplete(b: Baseline, w: Window)
    requires Complete(b)
    ensures Complete(NextBaseline(b, w))
  {
    hide Welford;
  }
}
