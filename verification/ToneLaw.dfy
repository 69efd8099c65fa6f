/** A pure tone on a bin is reported as that bin, with the tone's own amplitude. */
module ToneLaw {
  import opened Words
  import opened Complex
  import opened Reals
  import opened Spectrum
  import opened SpectrumBounds
  import Fft

  // ----- Powers of the roots -----

  lemma {:induction false} PowerOfOne(n: nat)
    ensures Pow(ONE, n) == ONE
    decreases n
  {
    hide Pow, Mul;
    PowStep(ONE, n);
    if n > 0 {
      PowerOfOne(n - 1);
      MulOne(ONE);
    }
  }

  lemma {:induction false} PowerOfMinusOne(n: nat)
    ensures Pow(MINUS_ONE, n) == if n % 2 == 0 then ONE else MINUS_ONE
    decreases n
  {
    hide Pow, Mul;
    PowStep(MINUS_ONE, n);
    if n > 0 {
      PowerOfMinusOne(n - 1);
      MulOne(MINUS_ONE);
      MinusOneSquared();
    }
  }

  lemma MinusOneSquared()
    ensures Mul(MINUS_ONE, MINUS_ONE) == ONE
  {
  }

  lemma RootSquares(root: nat -> Complex, p: nat)
    requires Fft.RootsOfUnity(root) && p >= 2
    ensures Mul(root(Pow2(p)), root(Pow2(p))) == root(Pow2(p - 1))
  {
    hide Mul, Pow2;
    assert Fft.IsSquareRoot(root(Pow2(p - 1 + 1)), root(Pow2(p - 1)));
  }

  /** A root to its own order is 1. */
  lemma RootToOrder(root: nat -> Complex, p: nat)
    requires Fft.RootsOfUnity(root) && p >= 1
    ensures Pow(root(Pow2(p)), Pow2(p)) == ONE
  {
    hide Pow, Mul, Fft.RootsOfUnity;
    var w := root(Pow2(p));
    Fft.RootHalfTurn(root, p - 1);
    PowAdd(w, Pow2(p - 1), Pow2(p - 1));
    MinusOneSquared();
  }

  /** A smaller power of the root is not. */
  lemma {:induction false} RootBelowOrder(root: nat -> Complex, p: nat, m: nat)
    requires Fft.RootsOfUnity(root) && p >= 1 && 0 < m < Pow2(p)
    ensures Pow(root(Pow2(p)), m) != ONE
    decreases p
  {
    hide Pow, Mul, Fft.RootsOfUnity;
    var w := root(Pow2(p));
    if m % 2 == 1 {
      OddPower(root, p, m);
    } else {
      assert m == 2 * (m / 2);
      Fft.EvenPower(w, m / 2);
      RootSquares(root, p);
      RootBelowOrder(root, p - 1, m / 2);
    }
  }

  /** Half the order takes an odd power of the root to -1. */
  lemma OddPower(root: nat -> Complex, p: nat, m: nat)
    requires Fft.RootsOfUnity(root) && p >= 1 && m % 2 == 1
    ensures Pow(root(Pow2(p)), m) != ONE
  {
    hide Pow, Mul, Fft.RootsOfUnity;
    var w, half := root(Pow2(p)), Pow2(p - 1);
    Fft.RootHalfTurn(root, p - 1);
    PowPow(w, half, m);
    PowPow(w, m, half);
    Commute(m, half);
    PowerOfMinusOne(m);
    PowerOfOne(half);
  }

  lemma Commute(a: nat, b: nat)
    ensures a * b == b * a
  {
  }

  // ----- Sums of powers -----

  ghost function GeometricSum(z: Complex, n: nat): Complex {
    if n == 0 then ZERO else Add(GeometricSum(z, n - 1), Pow(z, n - 1))
  }

  lemma Telescopes(z: Complex, g: Complex, q: Complex)
    requires Mul(Sub(z, ONE), g) == Sub(q, ONE)
    ensures Mul(Sub(z, ONE), Add(g, q)) == Sub(Mul(q, z), ONE)
  {
    MulAdd(Sub(z, ONE), g, q);
  }

  lemma {:induction false} GeometricLaw(z: Complex, n: nat)
    ensures Mul(Sub(z, ONE), GeometricSum(z, n)) == Sub(Pow(z, n), ONE)
    decreases n
  {
    if n > 0 {
      GeometricLaw(z, n - 1);
      hide Mul, Add, Sub;
      Telescopes(z, GeometricSum(z, n - 1), Pow(z, n - 1));
    }
  }

  lemma ZeroProduct(a: Complex, b: Complex)
    requires Mul(a, b) == ZERO && a != ZERO
    ensures b == ZERO
  {
    MagnitudeOfProduct(a, b);
    NonZeroMagnitude(a);
    var s, t := SquaredMagnitude(a), SquaredMagnitude(b);
    assert s * t == 0.0;
    if t > 0.0 {
      ProductPositive(s, t, s * t);
    }
    if b != ZERO {
      NonZeroMagnitude(b);
    }
  }

  lemma NonZeroMagnitude(a: Complex)
    requires a != ZERO
    ensures SquaredMagnitude(a) > 0.0
  {
    var s, t := a.re * a.re, a.im * a.im;
    SquareSign(a.re, s);
    SquareSign(a.im, t);
    assert SquaredMagnitude(a) == s + t;
  }

  lemma SquareSign(v: real, s: real)
    requires s == v * v
    ensures s >= 0.0 && (v != 0.0 ==> s > 0.0)
  {
    if v > 0.0 {
      ProductPositive(v, v, s);
    } else if v < 0.0 {
      ProductPositive(-v, -v, s);
    }
  }

  /** The powers of a root of 1 other than 1 add up to nothing. */
  lemma RootsCancel(z: Complex, n: nat)
    requires Pow(z, n) == ONE && z != ONE
    ensures GeometricSum(z, n) == ZERO
  {
    GeometricLaw(z, n);
    ZeroProduct(Sub(z, ONE), GeometricSum(z, n));
  }

  lemma {:induction false} OnesAddUp(n: nat)
    ensures GeometricSum(ONE, n) == Complex(n as real, 0.0)
    decreases n
  {
    hide Pow, Mul;
    if n > 0 {
      OnesAddUp(n - 1);
      PowerOfOne(n - 1);
    }
  }

  /** The sum over i < n of w^(i * m). */
  ghost function PowerSum(w: Complex, m: nat, n: nat): Complex {
    if n == 0 then ZERO else Add(PowerSum(w, m, n - 1), Pow(w, (n - 1) * m))
  }

  lemma {:induction false} PowerSumIsGeometric(w: Complex, m: nat, n: nat)
    ensures PowerSum(w, m, n) == GeometricSum(Pow(w, m), n)
    decreases n
  {
    hide Pow, Add;
    if n > 0 {
      PowerSumIsGeometric(w, m, n - 1);
      PowPow(w, m, n - 1);
    }
  }

  /** Over a full period the powers cancel, except at multiples of the period. */
  lemma FullPeriod(root: nat -> Complex, m: nat)
    requires Fft.RootsOfUnity(root) && 0 < m < 512
    ensures PowerSum(root(256), m, 256) == if m == 256 then Complex(256.0, 0.0) else ZERO
  {
    hide Pow, PowerSum, GeometricSum, Fft.RootsOfUnity;
    Pow2Values();
    var w := root(256);
    RootToOrder(root, 8);
    PowerSumIsGeometric(w, m, 256);
    var z := Pow(w, m);
    if m == 256 {
      OnesAddUp(256);
    } else {
      if m < 256 {
        RootBelowOrder(root, 8, m);
      } else {
        PowAdd(w, m - 256, 256);
        MulOne(Pow(w, m - 256));
        RootBelowOrder(root, 8, m - 256);
      }
      PowPow(w, m, 256);
      PowPow(w, 256, m);
      Commute(m, 256);
      PowerOfOne(m);
      RootsCancel(z, 256);
    }
  }

  // ----- The tone -----

  /** Amplitude a at bin k: a * cos(2 pi k n / 256), with the cosine as the real part
      of the root's powers. */
  ghost function Tone(root: nat -> Complex, a: real, k: nat): seq<real> {
    seq(SAMPLES, n requires 0 <= n < SAMPLES => a * Pow(root(SAMPLES), n * k).re)
  }

  ghost predicate Rectangular(window: nat -> real) {
    forall i: nat :: window(i) == 1.0
  }

  /** The real part of u, scaled by a. */
  function RealOf(a: real, u: Complex): Complex {
    Complex(a * u.re, 0.0)
  }

  function Scale(s: real, z: Complex): Complex {
    Complex(s * z.re, s * z.im)
  }

  lemma InverseIsConjugate(u: Complex, v: Complex)
    requires SquaredMagnitude(u) == 1.0 && Mul(v, u) == ONE
    ensures v == Complex(u.re, -u.im)
  {
    var c := Complex(u.re, -u.im);
    assert Mul(u, c) == ONE;
    MulAssoc(v, u, c);
    MulOne(v);
    MulOne(c);
  }

  /** The real part is half the sum of a power and its inverse. */
  lemma RealPart(u: Complex, v: Complex, z: Complex, a: real)
    requires v == Complex(u.re, -u.im)
    ensures Mul(RealOf(a, u), z) == Scale(a / 2.0, Add(Mul(u, z), Mul(v, z)))
  {
    RealHalf(a, u.re, u.im, z.re, z.im);
  }

  lemma RealHalf(a: real, p: real, q: real, x: real, y: real)
    ensures a * p * x == a / 2.0 * ((p * x - q * y) + (p * x - (-q) * y))
    ensures a * p * y == a / 2.0 * ((p * y + q * x) + (p * y + (-q) * x))
  {
    assert (p * x - q * y) + (p * x - (-q) * y) == 2.0 * (p * x);
    assert (p * y + q * x) + (p * y + (-q) * x) == 2.0 * (p * y);
  }

  lemma Distribute(n: nat, i: nat, j: nat)
    ensures n * i + n * j == n * (i + j)
  {
  }

  /** The inverse of a power of the root is a power too, and its conjugate. */
  lemma InversePower(root: nat -> Complex, k: nat, n: nat)
    requires Fft.RootsOfUnity(root) && k < 256
    ensures var u := Pow(root(256), n * k); Pow(root(256), n * (256 - k)) == Complex(u.re, -u.im)
  {
    hide Pow, Mul, Fft.RootsOfUnity, SquaredMagnitude;
    Pow2Values();
    var w := root(256);
    RootOnCircle(root, 8);
    PowerOnCircle(w, n * k);
    Distribute(n, 256 - k, k);
    PowAdd(w, n * (256 - k), n * k);
    PowPow(w, 256, n);
    RootToOrder(root, 8);
    PowerOfOne(n);
    InverseIsConjugate(Pow(w, n * k), Pow(w, n * (256 - k)));
  }

  lemma SplitPower(w: Complex, n: nat, i: nat, j: nat)
    ensures Pow(w, n * (i + j)) == Mul(Pow(w, n * i), Pow(w, n * j))
  {
    hide Pow, Mul;
    Distribute(n, i, j);
    PowAdd(w, n * i, n * j);
  }

  /** One term of the transform of a tone. */
  lemma ToneTerm(root: nat -> Complex, a: real, k: nat, j: nat, n: nat)
    requires Fft.RootsOfUnity(root) && k < 256
    ensures var w := root(256);
      Mul(RealOf(a, Pow(w, n * k)), Pow(w, n * j))
      == Scale(a / 2.0, Add(Pow(w, n * (k + j)), Pow(w, n * (256 - k + j))))
  {
    hide Pow, Mul, Add, Fft.RootsOfUnity, Scale, RealOf;
    var w := root(256);
    InversePower(root, k, n);
    RealPart(Pow(w, n * k), Pow(w, n * (256 - k)), Pow(w, n * j), a);
    SplitPower(w, n, k, j);
    SplitPower(w, n, 256 - k, j);
  }

  lemma ScaleAdds(s: real, p: Complex, q: Complex, x: Complex, y: Complex)
    ensures Add(Scale(s, Add(p, q)), Scale(s, Add(x, y))) == Scale(s, Add(Add(p, x), Add(q, y)))
  {
    Adds(s, p.re + q.re, x.re + y.re);
    Adds(s, p.im + q.im, x.im + y.im);
  }

  lemma Adds(s: real, x: real, y: real)
    ensures s * x + s * y == s * (x + y)
  {
  }

  /** The complex signal is the tone. */
  ghost predicate IsTone(x: seq<Complex>, w: Complex, a: real, k: nat) {
    forall i :: 0 <= i < |x| ==> x[i] == RealOf(a, Pow(w, i * k))
  }

  lemma ToneAt(x: seq<Complex>, w: Complex, a: real, k: nat, i: nat)
    requires IsTone(x, w, a, k) && i < |x|
    ensures Fft.At(x, i) == RealOf(a, Pow(w, i * k))
  {
  }

  lemma {:induction false} ToneSum(root: nat -> Complex, a: real, k: nat, j: nat, n: nat, x: seq<Complex>)
    requires Fft.RootsOfUnity(root) && k < 256 && n <= |x| && IsTone(x, root(256), a, k)
    ensures Fft.DftSum(x, root(256), j, n)
         == Scale(a / 2.0, Add(PowerSum(root(256), k + j, n), PowerSum(root(256), 256 - k + j, n)))
    decreases n
  {
    hide Pow, Mul, Fft.RootsOfUnity, IsTone, Fft.At, Add, Scale, RealOf;
    var w := root(256);
    if n == 0 {
      ScaleZero(a / 2.0);
    } else {
      ToneSum(root, a, k, j, n - 1, x);
      ToneAt(x, w, a, k, n - 1);
      ToneTerm(root, a, k, j, n - 1);
      ScaleAdds(a / 2.0, PowerSum(w, k + j, n - 1), PowerSum(w, 256 - k + j, n - 1),
                Pow(w, (n - 1) * (k + j)), Pow(w, (n - 1) * (256 - k + j)));
    }
  }

  lemma ScaleZero(s: real)
    ensures Scale(s, Add(ZERO, ZERO)) == ZERO
  {
    hide Scale;
    assert Add(ZERO, ZERO) == ZERO;
    ScaleOfZero(s, ZERO);
  }

  lemma ScaleOfZero(s: real, z: Complex)
    requires z.re == 0.0 && z.im == 0.0
    ensures Scale(s, z) == z
  {
  }

  lemma {:induction false} RectangularSum(window: nat -> real, n: nat)
    requires Rectangular(window)
    ensures WindowSum(window, n) == n as real
    decreases n
  {
    if n > 0 {
      RectangularSum(window, n - 1);
    }
  }

  /** The transform of a tone is 128 * a at its own bin and nothing at the others. */
  lemma ToneTransform(root: nat -> Complex, window: nat -> real, a: real, k: nat, j: nat)
    requires Fft.RootsOfUnity(root) && Rectangular(window) && 1 <= k < BINS && 1 <= j < BINS
    ensures Fft.Dft(Windowed(Tone(root, a, k), window), root(SAMPLES), j) ==
      if j == k then Complex(128.0 * a, 0.0) else ZERO
  {
    hide Pow, Fft.RootsOfUnity, PowerSum, Fft.DftSum, IsTone;
    var x := Windowed(Tone(root, a, k), window);
    WindowedTone(root, window, a, k);
    ToneSum(root, a, k, j, SAMPLES, x);
    FullPeriod(root, k + j);
    FullPeriod(root, 256 - k + j);
    ScaleZero(a / 2.0);
  }

  lemma WindowedTone(root: nat -> Complex, window: nat -> real, a: real, k: nat)
    requires Rectangular(window)
    ensures IsTone(Windowed(Tone(root, a, k), window), root(256), a, k)
  {
    hide Pow;
  }

  lemma RootOfSquare(v: real, sqrt: real -> real)
    requires IsSqrt(sqrt) && v >= 0.0
    ensures sqrt(v * v) == v
  {
    SquareOrder(sqrt(v * v), v);
    SquareOrder(v, sqrt(v * v));
  }

  lemma RealMagnitude(v: real, sqrt: real -> real)
    requires IsSqrt(sqrt) && v >= 0.0
    ensures sqrt(SquaredMagnitude(Complex(v, 0.0))) == v
  {
    hide IsSqrt;
    RootOfSquare(v, sqrt);
    assert SquaredMagnitude(Complex(v, 0.0)) == v * v;
  }

  /** The single-sided amplitude of a tone is the tone's amplitude. */
  lemma ToneAmplitude(root: nat -> Complex, window: nat -> real, sqrt: real -> real, a: real, k: nat, j: nat)
    requires Fft.RootsOfUnity(root) && Rectangular(window) && IsSqrt(sqrt) && a >= 0.0 && 1 <= k < BINS && 1 <= j < BINS
    ensures WindowSum(window, SAMPLES) > 0.0
    ensures Amplitudes(Tone(root, a, k), window, root, sqrt)[j] == if j == k then a else 0.0
  {
    hide Fft.RootsOfUnity, Rectangular, Fft.Dft, Tone, SquaredMagnitude, IsSqrt, WindowSum;
    RectangularSum(window, SAMPLES);
    ToneTransform(root, window, a, k, j);
    RealMagnitude(if j == k then 128.0 * a else 0.0, sqrt);
  }

  /** Bin 0 is not doubled: the amplitude of a constant is the constant. */
  lemma ConstantAmplitude(root: nat -> Complex, window: nat -> real, sqrt: real -> real, a: real)
    requires Fft.RootsOfUnity(root) && Rectangular(window) && IsSqrt(sqrt) && a >= 0.0
    ensures WindowSum(window, SAMPLES) > 0.0
    ensures Amplitudes(Tone(root, a, 0), window, root, sqrt)[0] == a
  {
    hide Fft.RootsOfUnity, Rectangular, SquaredMagnitude, IsSqrt, WindowSum, Pow, PowerSum, Fft.DftSum, IsTone, Tone;
    RectangularSum(window, SAMPLES);
    WindowedTone(root, window, a, 0);
    ToneLength(root, a, 0);
    ToneSum(root, a, 0, 0, SAMPLES, Windowed(Tone(root, a, 0), window));
    PowerSumOfNone(root(256), 256);
    FullPeriod(root, 256);
    RealMagnitude(256.0 * a, sqrt);
  }

  lemma ToneLength(root: nat -> Complex, a: real, k: nat)
    ensures |Tone(root, a, k)| == SAMPLES
  {
  }

  lemma PowerSumOfNone(w: Complex, n: nat)
    ensures PowerSum(w, 0, n) == Complex(n as real, 0.0)
  {
    hide PowerSum, GeometricSum, Mul;
    PowStep(w, 0);
    PowerSumIsGeometric(w, 0, n);
    OnesAddUp(n);
  }

  /** The analysis of a tone on an admissible bin reports that bin, its frequency
      k * rate / 256, and the tone's amplitude. */
  lemma ToneReported(r: FrequencyMetrics, root: nat -> Complex, window: nat -> real, sqrt: real -> real,
                     a: real, k: nat, rate: real, minimumFrequency: real)
    requires Fft.RootsOfUnity(root) && Rectangular(window) && IsSqrt(sqrt) && a > 0.0 && rate > 0.0
    requires FirstBin(rate, minimumFrequency) <= k < BINS && WindowSum(window, SAMPLES) > 0.0
    requires IsAnalysis(r, Tone(root, a, k), rate, minimumFrequency, window, root, sqrt)
    ensures r.bin == k && r.amplitude == a && r.frequency == k as real * rate / 256.0
  {
    hide Fft.RootsOfUnity, Rectangular, Tone, Amplitudes, IsSqrt, WindowSum;
    ToneAmplitude(root, window, sqrt, a, k, k);
    if r.bin != 0 {
      ToneAmplitude(root, window, sqrt, a, k, r.bin);
    }
  }
}
