/** Time-domain statistics of one vibration axis, over exact reals. */
module Features {
  import opened Reals

  datatype AxisMetrics = AxisMetrics(
    mean: real, rms: real, peak: real, peakToPeak: real,
    standardDeviation: real, crestFactor: real, kurtosis: real)

  const NO_METRICS := AxisMetrics(0.0, 0.0, 0.0, 0.0, 0.0, 0.0, 0.0)
  const RMS_FLOOR := 0.000000000001
  const VARIANCE_FLOOR := 0.00000000000000000001

  // ----- Moments -----

  function Square(x: real): (r: real)
    ensures r >= 0.0
  {
    x * x
  }

  lemma SquarePositive(x: real)
    requires x > 0.0
    ensures Square(x) > 0.0
  {
    ProductPositive(x, x, Square(x));
  }

  /** The sum of squared deviations from c. */
  function SquareSum(v: seq<real>, c: real): (r: real)
    ensures r >= 0.0
  {
    if v == [] then 0.0 else SquareSum(v[..|v| - 1], c) + Square(v[|v| - 1] - c)
  }

  /** The sum of fourth powers of deviations from c. */
  function FourthSum(v: seq<real>, c: real): (r: real)
    ensures r >= 0.0
  {
    if v == [] then 0.0 else FourthSum(v[..|v| - 1], c) + Square(Square(v[|v| - 1] - c))
  }

  ghost predicate IsPeak(v: seq<real>, peak: real) {
    && (forall i :: 0 <= i < |v| ==> Abs(v[i]) <= peak)
    && exists i :: 0 <= i < |v| && Abs(v[i]) == peak
  }

  ghost predicate IsExtreme(v: seq<real>, minimum: real, maximum: real) {
    && minimum in v && maximum in v
    && forall i :: 0 <= i < |v| ==> minimum <= v[i] <= maximum
  }

  function Mean(v: seq<real>): real
    requires v != []
  {
    Sum(v) / |v| as real
  }

  function Variance(v: seq<real>): real
    requires v != []
  {
    SquareSum(v, Mean(v)) / |v| as real
  }

  function CrestFactor(peak: real, rms: real): real {
    if rms > RMS_FLOOR then peak / rms else 0.0
  }

  function Kurtosis(v: seq<real>): real
    requires v != []
  {
    if Variance(v) > VARIANCE_FLOOR
    then
      SquarePositive(Variance(v));
      FourthSum(v, Mean(v)) / |v| as real / Square(Variance(v))
    else 0.0
  }

  /** What the metrics of a non-empty axis mean. */
  ghost predicate Describes(r: AxisMetrics, v: seq<real>, sqrt: real -> real)
    requires v != []
  {
    && r.mean == Mean(v)
    && r.rms == sqrt(SquareSum(v, 0.0) / |v| as real)
    && IsPeak(v, r.peak)
    && (exists lo, hi :: IsExtreme(v, lo, hi) && r.peakToPeak == hi - lo)
    && r.standardDeviation == sqrt(Variance(v))
    && r.crestFactor == CrestFactor(r.peak, r.rms)
    && r.kurtosis == Kurtosis(v)
  }

  // ----- The two accumulation loops -----

  /** The strided samples of one axis. */
  ghost predicate Addressable(samples: seq<real>, count: nat, stride: nat) {
    forall i :: 0 <= i < count ==> Offset(i, stride) < |samples|
  }

  function Offset(i: nat, stride: nat): nat {
    i * stride
  }

  ghost function Axis(samples: seq<real>, count: nat, stride: nat): seq<real>
    requires Addressable(samples, count, stride)
  {
    seq(count, i requires 0 <= i < count => samples[Offset(i, stride)])
  }

  method FirstPass(samples: seq<real>, count: nat, stride: nat)
    returns (sum: real, squares: real, minimum: real, maximum: real, peak: real)
    requires count > 0 && Addressable(samples, count, stride)
    ensures var v := Axis(samples, count, stride);
      sum == Sum(v) && squares == SquareSum(v, 0.0) && IsExtreme(v, minimum, maximum) && IsPeak(v, peak)
  {
    hide Square, Offset;
    ghost var v := Axis(samples, count, stride);
    var first := samples[Offset(0, stride)];
    assert first == v[0];
    sum, squares, minimum, maximum, peak := 0.0, 0.0, first, first, Abs(first);
    for index := 0 to count
      invariant sum == Sum(v[..index]) && squares == SquareSum(v[..index], 0.0)
      invariant minimum in v && maximum in v && exists i :: 0 <= i < |v| && Abs(v[i]) == peak
      invariant forall i :: 0 <= i < index ==> minimum <= v[i] <= maximum && Abs(v[i]) <= peak
    {
      var value := samples[Offset(index, stride)];
      assert value == v[index];
      assert v[..index + 1][..index] == v[..index];
      sum := sum + value;
      squares := squares + Square(value - 0.0);
      if value < minimum {
        minimum := value;
      }
      if value > maximum {
        maximum := value;
      }
      if Abs(value) > peak {
        peak := Abs(value);
      }
    }
    assert v[..count] == v;
  }

  method SecondPass(samples: seq<real>, count: nat, stride: nat, mean: real)
    returns (varianceSum: real, fourthSum: real)
    requires Addressable(samples, count, stride)
    ensures var v := Axis(samples, count, stride);
      varianceSum == SquareSum(v, mean) && fourthSum == FourthSum(v, mean)
  {
    hide Square, Offset;
    ghost var v := Axis(samples, count, stride);
    varianceSum, fourthSum := 0.0, 0.0;
    for index := 0 to count
      invariant varianceSum == SquareSum(v[..index], mean) && fourthSum == FourthSum(v[..index], mean)
    {
      var delta := samples[Offset(index, stride)] - mean;
      assert v[..index + 1][..index] == v[..index];
      varianceSum := varianceSum + Square(delta);
      fourthSum := fourthSum + Square(Square(delta));
    }
    assert v[..count] == v;
  }

  method CalculateAxisMetrics(samples: seq<real>, count: nat, stride: nat, sqrt: real -> real)
    returns (r: AxisMetrics)
    requires Addressable(samples, count, stride)
    ensures count == 0 || stride == 0 ==> r == NO_METRICS
    ensures count > 0 && stride > 0 ==> Describes(r, Axis(samples, count, stride), sqrt)
  {
    hide Square, IsPeak, IsExtreme;
    if count == 0 || stride == 0 {
      return NO_METRICS;
    }
    var sum, squares, minimum, maximum, peak := FirstPass(samples, count, stride);
    var mean := sum / count as real;
    var rms := sqrt(squares / count as real);
    var varianceSum, fourthSum := SecondPass(samples, count, stride, mean);
    var variance := varianceSum / count as real;
    var crest := if rms > RMS_FLOOR then peak / rms else 0.0;
    var kurtosis := 0.0;
    if variance > VARIANCE_FLOOR {
      SquarePositive(variance);
      kurtosis := fourthSum / count as real / Square(variance);
    }
    r := AxisMetrics(mean, rms, peak, maximum - minimum, sqrt(variance), crest, kurtosis);
    ghost var v := Axis(samples, count, stride);
    assert |v| == count && mean == Mean(v) && variance == Variance(v);
  }

  // ----- Identities and bounds -----

  /** The square sum about c from the moments about zero. */
  function Shifted(q: real, s: real, n: real, c: real): real {
    q - 2.0 * (c * s) + n * (c * c)
  }

  lemma ShiftStep(q: real, s: real, n: real, c: real, x: real)
    ensures Shifted(q, s, n, c) + Square(x - c) == Shifted(q + Square(x - 0.0), s + x, n + 1.0, c)
  {
  }

  lemma {:induction false} SquareSumShift(v: seq<real>, c: real)
    ensures SquareSum(v, c) == Shifted(SquareSum(v, 0.0), Sum(v), |v| as real, c)
    decreases |v|
  {
    if v != [] {
      hide Square, Shifted;
      var u, x := v[..|v| - 1], v[|v| - 1];
      SquareSumShift(u, c);
      ShiftStep(SquareSum(u, 0.0), Sum(u), |u| as real, c, x);
      assert |v| as real == |u| as real + 1.0;
    }
  }

  /** The mean square is the squared mean plus the variance. */
  lemma MeanSquareDecomposition(v: seq<real>)
    requires v != []
    ensures SquareSum(v, 0.0) / |v| as real == Mean(v) * Mean(v) + Variance(v)
  {
    hide SquareSum, Sum;
    SquareSumShift(v, Mean(v));
    DivideOut(SquareSum(v, 0.0), Sum(v), SquareSum(v, Mean(v)), |v| as real, Mean(v));
  }

  lemma DivideOut(q: real, s: real, d: real, n: real, m: real)
    requires n > 0.0 && m == s / n && d == Shifted(q, s, n, m)
    ensures q / n == m * m + d / n
  {
    assert s == m * n;
    assert m * s == n * (m * m);
    assert q == d + n * (m * m);
    assert q / n == d / n + n * (m * m) / n;
    assert n * (m * m) / n == m * m;
  }

  lemma SquareOfAbs(x: real)
    ensures Square(Abs(x)) == Square(x - 0.0)
  {
  }

  lemma {:induction false} PeakAboveMean(v: seq<real>, peak: real)
    requires forall i :: 0 <= i < |v| ==> Abs(v[i]) <= peak
    ensures SquareSum(v, 0.0) <= |v| as real * Square(peak)
    decreases |v|
  {
    if v != [] {
      hide Square;
      var u, x := v[..|v| - 1], v[|v| - 1];
      PeakAboveMean(u, peak);
      SquareOfAbs(x);
      assert Square(Abs(x)) <= Square(peak) by {
        SquareGrows(Abs(x), peak);
      }
      assert |v| as real == |u| as real + 1.0;
      assert |v| as real * Square(peak) == |u| as real * Square(peak) + Square(peak);
    }
  }

  lemma SquareGrows(a: real, b: real)
    requires 0.0 <= a <= b
    ensures Square(a) <= Square(b)
  {
    SquareOrder(a, b);
  }

  lemma {:induction false} PeakBelowSum(v: seq<real>, i: nat)
    requires i < |v|
    ensures Square(Abs(v[i])) <= SquareSum(v, 0.0)
    decreases |v|
  {
    hide Square;
    if i == |v| - 1 {
      SquareOfAbs(v[i]);
    } else {
      PeakBelowSum(v[..|v| - 1], i);
    }
  }

  /** Each fourth power is at most the square of the whole sum of squares. */
  lemma {:induction false} FourthBelowSquare(v: seq<real>, c: real)
    ensures FourthSum(v, c) <= Square(SquareSum(v, c))
    decreases |v|
  {
    if v != [] {
      FourthBelowSquare(v[..|v| - 1], c);
      SquareOfSum(SquareSum(v[..|v| - 1], c), Square(v[|v| - 1] - c));
    }
  }

  lemma SquareOfSum(s: real, a: real)
    requires s >= 0.0 && a >= 0.0
    ensures Square(s) + Square(a) <= Square(s + a)
  {
    assert s * a >= 0.0;
    assert Square(s + a) == Square(s) + Square(a) + 2.0 * (s * a);
  }

  /** The quadratic mean dominates: (sum of squares)^2 <= n * (sum of fourth powers). */
  lemma {:induction false} SquareBelowFourth(v: seq<real>, c: real)
    ensures Square(SquareSum(v, c)) <= |v| as real * FourthSum(v, c)
    decreases |v|
  {
    if v != [] {
      var u := v[..|v| - 1];
      SquareBelowFourth(u, c);
      assert |v| as real == |u| as real + 1.0;
      var a := Square(v[|v| - 1] - c);
      if u == [] {
        assert SquareSum(v, c) == 0.0 + a && FourthSum(v, c) == 0.0 + Square(a) && |v| as real == 1.0;
      } else {
        hide Square;
        CauchyStep(SquareSum(u, c), FourthSum(u, c), Square(v[|v| - 1] - c), |u| as real);
      }
    }
  }

  lemma CauchyStep(s: real, f: real, a: real, n: real)
    requires n >= 1.0 && Square(s) <= n * f
    ensures Square(s + a) <= (n + 1.0) * (f + Square(a))
  {
    var t := s / n;
    assert s == t * n;
    var d := t - a;
    assert n * (d * d) >= 0.0 by {
      assert d * d >= 0.0;
    }
    assert n * (d * d) == s * t - 2.0 * (s * a) + n * (a * a);
    assert s * t <= f by {
      assert s * s == n * (s * t);
      if s * t > f {
        MulLt(f, s * t, n);
      }
    }
    assert 2.0 * (s * a) <= f + n * (a * a);
  }

  /** The crest factor is 0 or between 1 and the square root of the length. */
  lemma CrestFactorBounds(v: seq<real>, r: AxisMetrics, sqrt: real -> real)
    requires v != [] && IsSqrt(sqrt) && Describes(r, v, sqrt)
    ensures r.crestFactor == 0.0 || (r.crestFactor >= 1.0 && r.crestFactor * r.crestFactor <= |v| as real)
  {
    hide SquareSum, Sum, Kurtosis, Variance, Mean, IsExtreme;
    var n := |v| as real;
    var q := SquareSum(v, 0.0);
    PeakAboveMean(v, r.peak);
    var i :| 0 <= i < |v| && Abs(v[i]) == r.peak;
    PeakBelowSum(v, i);
    RmsSquared(q, n, r.rms, sqrt);
    if r.rms > RMS_FLOOR {
      CrestRatio(r.peak, r.rms, n, q);
    }
  }

  lemma RmsSquared(q: real, n: real, rms: real, sqrt: real -> real)
    requires n >= 1.0 && q >= 0.0 && IsSqrt(sqrt) && rms == sqrt(q / n)
    ensures rms >= 0.0 && Square(rms) * n == q
  {
    var t := q / n;
    assert t >= 0.0 && q == t * n;
    assert rms * rms == t;
  }

  lemma CrestRatio(peak: real, rms: real, n: real, q: real)
    requires n >= 1.0 && rms > 0.0 && peak >= 0.0
    requires q == Square(rms) * n && Square(peak) <= q <= n * Square(peak)
    ensures peak / rms >= 1.0 && (peak / rms) * (peak / rms) <= n
  {
    var c := peak / rms;
    assert peak == c * rms;
    assert Square(rms) <= Square(peak) by {
      if Square(peak) < Square(rms) {
        MulLt(Square(peak), Square(rms), n);
      }
    }
    SquareOrder(rms, peak);
    assert c >= 1.0 by {
      if c < 1.0 {
        MulLt(c, 1.0, rms);
      }
    }
    assert Square(peak) == (c * c) * Square(rms);
    assert c * c <= n by {
      SquarePositive(rms);
      if c * c > n {
        MulLt(n, c * c, Square(rms));
      }
    }
  }

  /** The kurtosis is 0 or between 1 and the length. */
  lemma KurtosisBounds(v: seq<real>)
    requires v != []
    ensures Kurtosis(v) == 0.0 || 1.0 <= Kurtosis(v) <= |v| as real
  {
    hide SquareSum, FourthSum, Sum, Mean, Square;
    var n := |v| as real;
    var m := Mean(v);
    SquareBelowFourth(v, m);
    FourthBelowSquare(v, m);
    if Variance(v) > VARIANCE_FLOOR {
      KurtosisRatio(SquareSum(v, m), FourthSum(v, m), n);
    }
  }

  lemma KurtosisRatio(s: real, f: real, n: real)
    requires n >= 1.0 && s / n > 0.0 && f <= Square(s) <= n * f
    ensures Square(s / n) > 0.0
    ensures 1.0 <= f / n / Square(s / n) <= n
  {
    hide Square;
    var t, g := s / n, f / n;
    SquarePositive(t);
    assert s == t * n && f == g * n;
    SquareOfProduct(t, n);
    var p := Square(t);
    assert p <= g by {
      assert (p * n) * n <= (g * n) * n;
      CancelScale(p * n, g * n, n);
      CancelScale(p, g, n);
    }
    assert g <= n * p by {
      assert g * n <= (n * p) * n;
      CancelScale(g, n * p, n);
    }
    RatioBetween(g, p, n);
  }

  lemma SquareOfProduct(t: real, n: real)
    ensures Square(t * n) == Square(t) * n * n
  {
  }

  lemma RatioBetween(g: real, p: real, n: real)
    requires p > 0.0 && p <= g <= n * p
    ensures 1.0 <= g / p <= n
  {
    var k := g / p;
    assert g == k * p;
    CancelScale(1.0, k, p);
    CancelScale(k, n, p);
  }

  lemma CancelScale(a: real, b: real, w: real)
    requires w > 0.0 && a * w <= b * w
    ensures a <= b
  {
    if a > b {
      MulLt(b, a, w);
    }
  }

  /** Above the floors, set far below any measurable signal, the ratios are what their
      names say; at or below them they are 0. */
  lemma CrestIsRatio(peak: real, rms: real)
    ensures rms >= 0.001 ==> CrestFactor(peak, rms) * rms == peak
    ensures CrestFactor(peak, rms) != 0.0 ==> rms > 0.000000000001 && CrestFactor(peak, rms) * rms == peak
    ensures rms <= 0.000000000001 ==> CrestFactor(peak, rms) == 0.0
  {
  }

  /** The mean fourth power of the deviations is the kurtosis times the squared variance. */
  lemma KurtosisIsRatio(v: seq<real>)
    requires v != []
    ensures Variance(v) >= 0.000001 ==>
      && Kurtosis(v) >= 1.0
      && Kurtosis(v) * (Variance(v) * Variance(v)) == FourthSum(v, Mean(v)) / |v| as real
    ensures Variance(v) <= 0.00000000000000000001 ==> Kurtosis(v) == 0.0
  {
    hide SquareSum, FourthSum, Sum, Mean;
    var m := Mean(v);
    SquareBelowFourth(v, m);
    FourthBelowSquare(v, m);
    if Variance(v) > VARIANCE_FLOOR {
      KurtosisRatio(SquareSum(v, m), FourthSum(v, m), |v| as real);
      Ratio(FourthSum(v, m) / |v| as real, Square(Variance(v)));
    }
  }

  lemma Ratio(g: real, p: real)
    requires p > 0.0
    ensures g / p * p == g
  {
  }

  /** A computed 256-sample window never meets the encoder's crest and kurtosis limits. */
  lemma WindowWithinEncoderLimits(v: seq<real>, r: AxisMetrics, sqrt: real -> real)
    requires |v| == 256 && IsSqrt(sqrt) && Describes(r, v, sqrt)
    ensures 0.0 <= r.crestFactor <= 16.0 && 0.0 <= r.kurtosis <= 256.0
    ensures 0.0 <= r.rms <= r.peak
  {
    CrestFactorBounds(v, r, sqrt);
    KurtosisBounds(v);
    RmsBelowPeak(v, r, sqrt);
    if r.crestFactor > 16.0 {
      SquareLt(16.0, r.crestFactor);
    }
  }

  lemma RmsBelowPeak(v: seq<real>, r: AxisMetrics, sqrt: real -> real)
    requires v != [] && IsSqrt(sqrt) && Describes(r, v, sqrt)
    ensures 0.0 <= r.rms <= r.peak
  {
    hide SquareSum, Sum, Kurtosis, Variance, Mean, IsExtreme;
    var n := |v| as real;
    var q := SquareSum(v, 0.0);
    PeakAboveMean(v, r.peak);
    RmsSquared(q, n, r.rms, sqrt);
    assert 0.0 <= r.peak by {
      var i :| 0 <= i < |v| && Abs(v[i]) == r.peak;
    }
    CancelScale(Square(r.rms), Square(r.peak), n);
    SquareOrder(r.rms, r.peak);
  }
}
