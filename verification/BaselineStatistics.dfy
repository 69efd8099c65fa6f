/** Running statistics of the learned baseline, and their meaning. */
module BaselineStatistics {
  import opened Reals
  import opened Features

  datatype Kind = AccelRms | AccelPeak | Crest | KurtosisKind | DominantFrequency | DominantAmplitude | GyroRms

  datatype Axis = X | Y | Z

  datatype Feature = Feature(kind: Kind, axis: Axis)

  const FEATURES: seq<Feature> := [
    Feature(AccelRms, X), Feature(AccelRms, Y), Feature(AccelRms, Z),
    Feature(AccelPeak, X), Feature(AccelPeak, Y), Feature(AccelPeak, Z),
    Feature(Crest, X), Feature(Crest, Y), Feature(Crest, Z),
    Feature(KurtosisKind, X), Feature(KurtosisKind, Y), Feature(KurtosisKind, Z),
    Feature(DominantFrequency, X), Feature(DominantFrequency, Y), Feature(DominantFrequency, Z),
    Feature(DominantAmplitude, X), Feature(DominantAmplitude, Y), Feature(DominantAmplitude, Z),
    Feature(GyroRms, X), Feature(GyroRms, Y), Feature(GyroRms, Z)]

  /** The features are listed completely. */
  lemma FeaturesComplete(f: Feature)
    ensures f in FEATURES
  {
    assert FEATURES[Code(f)] == f;
  }

  /** The place of a feature in the list. */
  function Code(f: Feature): nat {
    (match f.kind case AccelRms => 0 case AccelPeak => 3 case Crest => 6 case KurtosisKind => 9
     case DominantFrequency => 12 case DominantAmplitude => 15 case GyroRms => 18)
    + (match f.axis case X => 0 case Y => 1 case Z => 2)
  }

  datatype Stat = Stat(count: nat, mean: real, m2: real, min: real, max: real)

  type Statistics = map<Feature, Stat>

  /** The values of one eligible window. */
  type Values = Feature -> real

  // ----- The plain definition -----

  function MinOf(s: seq<real>): real
    requires s != []
  {
    if |s| == 1 then s[0] else Min(MinOf(s[..|s| - 1]), s[|s| - 1])
  }

  function MaxOf(s: seq<real>): real
    requires s != []
  {
    if |s| == 1 then s[0] else Max(MaxOf(s[..|s| - 1]), s[|s| - 1])
  }

  /** Count, mean, sum of squared deviations from the mean, and extremes. */
  function StatOf(s: seq<real>): Stat
    requires s != []
  {
    Stat(|s|, Mean(s), SquareSum(s, Mean(s)), MinOf(s), MaxOf(s))
  }

  // ----- The incremental update -----

  function Welford(item: Stat, value: real): Stat {
    var count := item.count + 1;
    var delta := value - item.mean;
    var mean := item.mean + delta / count as real;
    Stat(count, mean, item.m2 + delta * (value - mean), Min(item.min, value), Max(item.max, value))
  }

  function Fresh(value: real): Stat {
    Stat(0, 0.0, 0.0, value, value)
  }

  lemma MeanStep(s: real, n: real, v: real, m: real)
    requires n >= 1.0 && m == s / n
    ensures (s + v) / (n + 1.0) == m + (v - m) / (n + 1.0)
  {
    assert s == m * n;
    var e := (v - m) / (n + 1.0);
    assert e * (n + 1.0) == v - m;
    assert (m + e) * (n + 1.0) == s + v;
  }

  /** With m' = m + e, (n + 1) * e = v - m and s = n * m. */
  lemma MomentStep(q: real, s: real, n: real, v: real, m: real, e: real)
    requires n >= 1.0 && s == m * n && v == m + (n + 1.0) * e
    ensures Shifted(q + v * v, s + v, n + 1.0, m + e) == Shifted(q, s, n, m) + (v - m) * (v - (m + e))
  {
    var k := n + 1.0;
    assert s + v == k * (m + e);
    assert Shifted(q, s, n, m) == q - n * (m * m) by {
      assert m * s == n * (m * m);
    }
    assert Shifted(q + v * v, s + v, k, m + e) == q + v * v - k * ((m + e) * (m + e)) by {
      assert (m + e) * (s + v) == k * ((m + e) * (m + e));
    }
    assert v * v == m * m + 2.0 * (k * (m * e)) + (k * e) * (k * e);
    assert k * ((m + e) * (m + e)) == k * (m * m) + 2.0 * (k * (m * e)) + k * (e * e);
    assert v - (m + e) == n * e;
    assert (v - m) * (n * e) == (k * e) * (n * e);
    assert (k * e) * (k * e) == (k * e) * (n * e) + k * (e * e);
  }

  lemma MeanOfLonger(s: seq<real>, v: real)
    requires s != []
    ensures Mean(s + [v]) == Mean(s) + (v - Mean(s)) / (|s| as real + 1.0)
  {
    hide Sum;
    SumSnoc(s, v);
    MeanStep(Sum(s), |s| as real, v, Mean(s));
    assert |s + [v]| as real == |s| as real + 1.0;
  }

  lemma MomentOfLonger(s: seq<real>, v: real)
    requires s != []
    ensures var m, m' := Mean(s), Mean(s + [v]);
      SquareSum(s + [v], m') == SquareSum(s, m) + (v - m) * (v - m')
  {
    hide SquareSum, Sum, Shifted;
    var n, m := |s| as real, Mean(s);
    var t, e := s + [v], (v - m) / (n + 1.0);
    MeanOfLonger(s, v);
    SquareSumShift(s, m);
    SquareSumShift(t, m + e);
    SquareSumSnoc(s, v);
    SumSnoc(s, v);
    assert |t| as real == n + 1.0;
    MeanSplits(Sum(s), n, v, m, e);
    MomentStep(SquareSum(s, 0.0), Sum(s), n, v, m, e);
  }

  lemma MeanSplits(s: real, n: real, v: real, m: real, e: real)
    requires n >= 1.0 && m == s / n && e == (v - m) / (n + 1.0)
    ensures s == m * n && v == m + (n + 1.0) * e
  {
  }

  /** One update of the statistics of a list gives the statistics of the longer list. */
  lemma WelfordCorrect(s: seq<real>, v: real)
    requires s != []
    ensures Welford(StatOf(s), v) == StatOf(s + [v])
  {
    hide SquareSum, Mean, MinOf, MaxOf;
    Extremes(s, v);
    MeanOfLonger(s, v);
    MomentOfLonger(s, v);
    assert |s + [v]| as real == |s| as real + 1.0;
  }

  lemma SquareSumSnoc(s: seq<real>, v: real)
    ensures SquareSum(s + [v], 0.0) == SquareSum(s, 0.0) + v * v
  {
    assert (s + [v])[..|s|] == s;
    assert Square(v - 0.0) == v * v;
  }

  lemma Extremes(s: seq<real>, v: real)
    requires s != []
    ensures MinOf(s + [v]) == Min(MinOf(s), v) && MaxOf(s + [v]) == Max(MaxOf(s), v)
  {
    assert (s + [v])[..|s|] == s;
  }

  lemma FirstValue(v: real)
    ensures Welford(Fresh(v), v) == StatOf([v])
  {
    assert [v][..0] == [];
    assert Sum([v]) == Sum([]) + v == v;
    assert Mean([v]) == v / 1.0;
    assert SquareSum([v], v) == SquareSum([], v) + Square(v - v);
  }

  /** The extremes are elements that bound the list. */
  lemma {:induction false} ExtremesBound(s: seq<real>)
    requires s != []
    ensures MinOf(s) in s && MaxOf(s) in s
    ensures forall i :: 0 <= i < |s| ==> MinOf(s) <= s[i] <= MaxOf(s)
    decreases |s|
  {
    if |s| > 1 {
      var u := s[..|s| - 1];
      ExtremesBound(u);
      assert forall i :: 0 <= i < |u| ==> u[i] == s[i];
    }
  }

  // ----- All features at once -----

  /** The history of one feature over the counted windows. */
  ghost function Column(windows: seq<Values>, f: Feature): seq<real> {
    seq(|windows|, i requires 0 <= i < |windows| => windows[i](f))
  }

  /** The statistics are those of exactly these windows, feature by feature. */
  ghost predicate Summarises(statistics: Statistics, windows: seq<Values>) {
    if windows == [] then statistics == map[]
    else forall f: Feature :: f in statistics && statistics[f] == StatOf(Column(windows, f))
  }

  function Item(statistics: Statistics, f: Feature, value: real): Stat {
    if f in statistics then statistics[f] else Fresh(value)
  }

  function Updated(statistics: Statistics, values: Values): Statistics {
    map f | f in FEATURES :: Welford(Item(statistics, f, values(f)), values(f))
  }

  /** update_statistics: every feature in turn, in place. */
  method UpdateStatistics(statistics: Statistics, values: Values) returns (r: Statistics)
    ensures r == Updated(statistics, values)
  {
    hide Welford;
    r := statistics;
    for i := 0 to |FEATURES|
      invariant forall f :: f in FEATURES[..i] ==> f in r && r[f] == Welford(Item(statistics, f, values(f)), values(f))
      invariant forall f :: f !in FEATURES[..i] ==> (f in r <==> f in statistics) && (f in r ==> r[f] == statistics[f])
    {
      var name := FEATURES[i];
      NextFeature(i);
      var value := values(name);
      var item := if name in r then r[name] else Fresh(value);
      r := r[name := Welford(item, value)];
    }
    assert FEATURES[..|FEATURES|] == FEATURES;
    forall f: Feature
      ensures f in FEATURES && f in r
    {
      FeaturesComplete(f);
    }
  }

  /** The features are listed once each. */
  lemma NextFeature(i: nat)
    requires i < |FEATURES|
    ensures FEATURES[i] !in FEATURES[..i]
    ensures forall f :: f in FEATURES[..i + 1] <==> f in FEATURES[..i] || f == FEATURES[i]
  {
    hide Code;
    var list := FEATURES;
    assert list[..i + 1] == list[..i] + [list[i]];
    FeatureCode(i);
    forall j | 0 <= j < i
      ensures list[j] != list[i]
    {
      FeatureCode(j);
    }
  }

  lemma FeatureCode(i: nat)
    requires i < |FEATURES|
    ensures Code(FEATURES[i]) == i
  {
  }

  /** One more window: updated statistics summarise one more window. */
  lemma UpdateSummarises(statistics: Statistics, windows: seq<Values>, values: Values)
    requires Summarises(statistics, windows)
    ensures Summarises(Updated(statistics, values), windows + [values])
  {
    hide Welford, StatOf;
    var r := Updated(statistics, values);
    forall f: Feature
      ensures f in r && r[f] == StatOf(Column(windows + [values], f))
    {
      FeaturesComplete(f);
      var v := values(f);
      if windows == [] {
        FirstValue(v);
        assert Column(windows + [values], f) == [v];
      } else {
        WelfordCorrect(Column(windows, f), v);
        assert Column(windows + [values], f) == Column(windows, f) + [v];
      }
    }
  }
}
