/** How large a spectral amplitude can be: at most twice the peak of the samples. */
module SpectrumBounds {
  import opened Words
  import opened Complex
  import opened Reals
  import opened Spectrum
  import Fft

  // ----- Moduli -----

  lemma MagnitudeOfProduct(a: Complex, b: Complex)
    ensures SquaredMagnitude(Mul(a, b)) == SquaredMagnitude(a) * SquaredMagnitude(b)
  {
    ProductOfSquares(a.re, a.im, b.re, b.im);
  }

  lemma ProductOfSquares(a: real, b: real, c: real, d: real)
    ensures (a * c - b * d) * (a * c - b * d) + (a * d + b * c) * (a * d + b * c) == (a * a + b * b) * (c * c + d * d)
  {
  }

  lemma UnitSquare(v: real)
    requires v >= 0.0 && v * v == 1.0
    ensures v == 1.0
  {
    SquareOrder(v, 1.0);
    SquareOrder(1.0, v);
  }

  /** Every root of the chain has modulus 1. */
  lemma {:induction false} RootOnCircle(root: nat -> Complex, p: nat)
    requires Fft.RootsOfUnity(root) && p >= 1
    ensures SquaredMagnitude(root(Pow2(p))) == 1.0
    decreases p
  {
    if p == 1 {
      assert Pow2(1) == 2;
    } else {
      var w := root(Pow2(p));
      RootOnCircle(root, p - 1);
      assert Fft.IsSquareRoot(root(Pow2(p - 1 + 1)), root(Pow2(p - 1)));
      MagnitudeOfProduct(w, w);
      UnitSquare(SquaredMagnitude(w));
    }
  }

  lemma {:induction false} PowerOnCircle(w: Complex, n: nat)
    requires SquaredMagnitude(w) == 1.0
    ensures SquaredMagnitude(Pow(w, n)) == 1.0
    decreases n
  {
    if n > 0 {
      PowerOnCircle(w, n - 1);
      MagnitudeOfProduct(Pow(w, n - 1), w);
    }
  }

  // ----- The triangle inequality -----

  lemma Lagrange(a: real, b: real, c: real, d: real)
    ensures (a * c + b * d) * (a * c + b * d) <= (a * a + b * b) * (c * c + d * d)
  {
    var e := a * d - b * c;
    assert e * e >= 0.0;
    assert (a * a + b * b) * (c * c + d * d) == (a * c + b * d) * (a * c + b * d) + e * e;
  }

  lemma ProductsOrdered(x: real, y: real, a: real, b: real)
    requires 0.0 <= x <= a && 0.0 <= y <= b
    ensures x * y <= a * b
  {
    MulLe(x, a, y);
    MulLe(y, b, a);
  }

  lemma CrossTerm(r: real, x: real, y: real, a: real, b: real)
    requires r * r <= x * y && 0.0 <= x <= a * a && 0.0 <= y <= b * b && a >= 0.0 && b >= 0.0
    ensures r <= a * b
  {
    ProductsOrdered(x, y, a * a, b * b);
    var c := a * b;
    assert c * c == (a * a) * (b * b);
    if r > 0.0 {
      SquareOrder(r, c);
    }
  }

  lemma MagnitudeOfSum(z: Complex, y: Complex, a: real, b: real)
    requires a >= 0.0 && b >= 0.0 && SquaredMagnitude(z) <= a * a && SquaredMagnitude(y) <= b * b
    ensures SquaredMagnitude(Add(z, y)) <= (a + b) * (a + b)
  {
    hide SquaredMagnitude, Add;
    var r := CrossOf(z, y);
    CrossTerm(r, SquaredMagnitude(z), SquaredMagnitude(y), a, b);
    SquareOfSum(a, b);
  }

  /** The cross term of the squared modulus of a sum. */
  lemma CrossOf(z: Complex, y: Complex) returns (r: real)
    ensures r * r <= SquaredMagnitude(z) * SquaredMagnitude(y)
    ensures SquaredMagnitude(Add(z, y)) == SquaredMagnitude(z) + SquaredMagnitude(y) + 2.0 * r
  {
    r := z.re * y.re + z.im * y.im;
    Lagrange(z.re, z.im, y.re, y.im);
    SumOfSquares(z.re, z.im, y.re, y.im);
  }

  lemma SquareOfSum(a: real, b: real)
    ensures (a + b) * (a + b) == a * a + b * b + 2.0 * (a * b)
  {
  }

  lemma SumOfSquares(a: real, b: real, c: real, d: real)
    ensures (a + c) * (a + c) + (b + d) * (b + d) == a * a + b * b + (c * c + d * d) + 2.0 * (a * c + b * d)
  {
  }

  // ----- The transform of bounded samples -----

  /** No sample exceeds the peak and no weight is negative. */
  ghost predicate BoundedBy(samples: seq<real>, peak: real, window: nat -> real) {
    && peak >= 0.0 && (forall i :: 0 <= i < |samples| ==> Abs(samples[i]) <= peak)
    && forall i: nat :: window(i) >= 0.0
  }

  /** The largest modulus that n samples below the peak can add up to. */
  function Reach(peak: real, window: nat -> real, n: nat): real {
    if n == 0 then 0.0 else Reach(peak, window, n - 1) + Tap(peak, window(n - 1))
  }

  /** The squared modulus is at most the square of the bound. */
  predicate ModulusAtMost(z: Complex, bound: real) {
    bound >= 0.0 && SquaredMagnitude(z) <= bound * bound
  }

  lemma WeightedSample(v: real, weight: real, peak: real)
    requires Abs(v) <= peak && weight >= 0.0
    ensures ModulusAtMost(Complex(Tap(v, weight), 0.0), Tap(peak, weight))
  {
    var t, bound := Abs(v) * weight, peak * weight;
    MulLe(Abs(v), peak, weight);
    assert t >= 0.0;
    assert t * t == (v * weight) * (v * weight) by {
      assert t == v * weight || t == -(v * weight);
    }
    SquareOrder(t, bound);
  }

  lemma TermBound(x: Complex, w: Complex, n: nat, bound: real)
    requires ModulusAtMost(x, bound) && SquaredMagnitude(w) == 1.0
    ensures ModulusAtMost(Mul(x, Pow(w, n)), bound)
  {
    hide Mul, Pow;
    MagnitudeOfProduct(x, Pow(w, n));
    PowerOnCircle(w, n);
  }

  lemma SumBound(z: Complex, y: Complex, a: real, b: real)
    requires ModulusAtMost(z, a) && ModulusAtMost(y, b)
    ensures ModulusAtMost(Add(z, y), a + b)
  {
    MagnitudeOfSum(z, y, a, b);
  }

  lemma {:induction false} TransformBound(samples: seq<real>, peak: real, window: nat -> real, w: Complex, k: nat, n: nat)
    requires BoundedBy(samples, peak, window) && SquaredMagnitude(w) == 1.0 && n <= |samples|
    ensures ModulusAtMost(Fft.DftSum(Windowed(samples, window), w, k, n), Reach(peak, window, n))
    decreases n
  {
    hide Mul, Add, Pow, SquaredMagnitude, Tap, ModulusAtMost;
    var x := Windowed(samples, window);
    if n == 0 {
      ZeroMagnitude();
    } else {
      TransformBound(samples, peak, window, w, k, n - 1);
      var v, weight := samples[n - 1], window(n - 1);
      WeightedSample(v, weight, peak);
      TermBound(Fft.At(x, n - 1), w, (n - 1) * k, Tap(peak, weight));
      SumBound(Fft.DftSum(x, w, k, n - 1), Mul(Fft.At(x, n - 1), Pow(w, (n - 1) * k)),
               Reach(peak, window, n - 1), Tap(peak, weight));
    }
  }

  lemma {:induction false} ReachIsScaledSum(peak: real, window: nat -> real, n: nat)
    ensures Reach(peak, window, n) == peak * WindowSum(window, n)
    decreases n
  {
    if n > 0 {
      ReachIsScaledSum(peak, window, n - 1);
      SumSplits(peak, WindowSum(window, n - 1), window(n - 1));
    }
  }

  lemma SumSplits(peak: real, sum: real, weight: real)
    ensures peak * sum + peak * weight == peak * (sum + weight)
  {
  }

  lemma ZeroMagnitude()
    ensures ModulusAtMost(ZERO, 0.0)
  {
  }

  lemma RootBelow(m: real, bound: real, sqrt: real -> real)
    requires IsSqrt(sqrt) && 0.0 <= m <= bound * bound && bound >= 0.0
    ensures 0.0 <= sqrt(m) <= bound
  {
    SquareOrder(sqrt(m), bound);
  }

  lemma Normalised(v: real, peak: real, sum: real)
    requires 0.0 <= v <= peak * sum && sum > 0.0
    ensures 0.0 <= 2.0 * v / sum <= 2.0 * peak
  {
    var q := v / sum;
    assert q * sum == v;
    if q > peak {
      MulLt(peak, q, sum);
    }
    if q < 0.0 {
      MulLt(q, 0.0, sum);
    }
    assert 2.0 * v / sum == 2.0 * q;
  }

  /** Every bin above 0: the amplitude is at most twice the peak of the samples. */
  lemma AmplitudeBound(samples: seq<real>, peak: real, window: nat -> real, root: nat -> Complex, sqrt: real -> real, bin: nat)
    requires |samples| == SAMPLES && BoundedBy(samples, peak, window) && WindowSum(window, SAMPLES) > 0.0
    requires Fft.RootsOfUnity(root) && IsSqrt(sqrt) && 1 <= bin < BINS
    ensures 0.0 <= Amplitudes(samples, window, root, sqrt)[bin] <= 2.0 * peak
  {
    hide SquaredMagnitude, Fft.DftSum, WindowSum, IsSqrt, Fft.RootsOfUnity, Tap, Reach;
    Pow2Values();
    RootOnCircle(root, 8);
    var sum := WindowSum(window, SAMPLES);
    TransformBound(samples, peak, window, root(SAMPLES), bin, SAMPLES);
    ReachIsScaledSum(peak, window, SAMPLES);
    var z := Fft.Dft(Windowed(samples, window), root(SAMPLES), bin);
    RootBelow(SquaredMagnitude(z), peak * sum, sqrt);
    Normalised(sqrt(SquaredMagnitude(z)), peak, sum);
  }

  /** The reported component of a window lies between the minimum frequency and half
      the sample rate, or is absent, and its amplitude is at most twice the peak. */
  lemma AnalysisBounds(r: FrequencyMetrics, samples: seq<real>, peak: real, rate: real, minimumFrequency: real,
                       window: nat -> real, root: nat -> Complex, sqrt: real -> real)
    requires |samples| == SAMPLES && BoundedBy(samples, peak, window) && WindowSum(window, SAMPLES) > 0.0
    requires Fft.RootsOfUnity(root) && IsSqrt(sqrt) && rate > 0.0
    requires IsAnalysis(r, samples, rate, minimumFrequency, window, root, sqrt)
    ensures 0.0 <= r.amplitude <= 2.0 * peak
    ensures r.bin == 0 ==> r.frequency == 0.0 && r.amplitude == 0.0
    ensures r.bin != 0 ==> minimumFrequency <= r.frequency && 0.0 < r.frequency < rate / 2.0 && r.amplitude > 0.0
  {
    hide Amplitudes, IsSqrt, Fft.RootsOfUnity, BoundedBy, WindowSum, BinFrequency;
    if r.bin == 0 {
      FirstFrequency(rate);
      PeakNonNegative(samples, peak, window);
    } else {
      AmplitudeBound(samples, peak, window, root, sqrt, r.bin);
      DominantFrequencyRange(rate, minimumFrequency, r.bin);
      PositiveFrequency(rate, r.bin);
    }
  }

  lemma PeakNonNegative(samples: seq<real>, peak: real, window: nat -> real)
    requires BoundedBy(samples, peak, window)
    ensures peak >= 0.0
  {
  }

  lemma FirstFrequency(rate: real)
    ensures BinFrequency(rate, 0) == 0.0
  {
  }

  lemma PositiveFrequency(rate: real, bin: nat)
    requires rate > 0.0 && bin >= 1
    ensures BinFrequency(rate, bin) > 0.0
  {
    ProductPositive(bin as real, BinWidth(rate), BinFrequency(rate, bin));
  }
}
