/** Windowing, transform and dominant-bin selection of one 256-sample axis. */
module Spectrum {
  import opened Words
  import opened Complex
  import opened Reals
  import Fft

  const SAMPLES: nat := 256
  const BINS: nat := 128

  datatype FrequencyMetrics = FrequencyMetrics(frequency: real, amplitude: real, bin: nat)

  const NO_METRICS := FrequencyMetrics(0.0, 0.0, 0)

  function Tap(sample: real, weight: real): real {
    sample * weight
  }

  /** The windowed samples as a complex signal. */
  ghost function Windowed(samples: seq<real>, window: nat -> real): seq<Complex> {
    seq(|samples|, i requires 0 <= i < |samples| => Complex(Tap(samples[i], window(i)), 0.0))
  }

  function WindowSum(window: nat -> real, n: nat): real {
    if n == 0 then 0.0 else WindowSum(window, n - 1) + window(n - 1)
  }

  function SquaredMagnitude(z: Complex): (r: real)
    ensures r >= 0.0
  {
    z.re * z.re + z.im * z.im
  }

  /** The single-sided amplitude of a bin. */
  function Amplitude(z: Complex, sqrt: real -> real, windowSum: real, bin: nat): real
    requires windowSum != 0.0
  {
    (if bin == 0 then 1.0 else 2.0) * sqrt(SquaredMagnitude(z)) / windowSum
  }

  function BinWidth(rate: real): real {
    rate / 256.0
  }

  function BinFrequency(rate: real, bin: nat): real {
    bin as real * BinWidth(rate)
  }

  function Ceiling(v: real): (r: int)
    ensures (r - 1) as real < v <= r as real
  {
    -((-v).Floor)
  }

  /** The lowest admissible bin: at least 1 and at or above the minimum frequency. */
  function FirstBin(rate: real, minimumFrequency: real): (r: int)
    requires rate > 0.0
    ensures r >= 1
  {
    var c := Ceiling(minimumFrequency / BinWidth(rate));
    if c < 1 then 1 else c
  }

  /** The selected bin is the lowest one whose amplitude is maximal among the
      admissible bins below n, provided that maximum is positive. */
  ghost predicate Dominant(amplitudes: seq<real>, first: nat, n: nat, bin: nat, amplitude: real)
    requires n <= |amplitudes|
  {
    if bin == 0 then
      amplitude == 0.0 && forall b :: first <= b < n ==> amplitudes[b] <= 0.0
    else
      && first <= bin < n && amplitude == amplitudes[bin] > 0.0
      && (forall b :: first <= b < n ==> amplitudes[b] <= amplitude)
      && (forall b :: first <= b < bin ==> amplitudes[b] < amplitude)
  }

  /** The amplitudes of the windowed signal's exact transform. */
  ghost function Amplitudes(samples: seq<real>, window: nat -> real, root: nat -> Complex, sqrt: real -> real): (r: seq<real>)
    requires WindowSum(window, SAMPLES) > 0.0
    ensures |r| == BINS
  {
    seq(BINS, b requires 0 <= b < BINS =>
      Amplitude(Fft.Dft(Windowed(samples, window), root(SAMPLES), b), sqrt, WindowSum(window, SAMPLES), b))
  }

  /** What the analysis of a window reports: its dominant admissible component, if any
      bin is admissible. */
  ghost predicate IsAnalysis(r: FrequencyMetrics, samples: seq<real>, rate: real, minimumFrequency: real,
                             window: nat -> real, root: nat -> Complex, sqrt: real -> real)
    requires WindowSum(window, SAMPLES) > 0.0
  {
    if rate <= 0.0 || FirstBin(rate, minimumFrequency) >= BINS then r == NO_METRICS
    else
      && Dominant(Amplitudes(samples, window, root, sqrt), FirstBin(rate, minimumFrequency), BINS, r.bin, r.amplitude)
      && r.frequency == BinFrequency(rate, r.bin)
  }

  class VibrationFft256 {
    const real_: array<real>
    const imaginary: array<real>
    const amplitudes: array<real>

    ghost predicate Valid() {
      && real_ != imaginary && real_ != amplitudes && imaginary != amplitudes
      && real_.Length == SAMPLES && imaginary.Length == SAMPLES && amplitudes.Length == BINS
    }

    constructor ()
      ensures Valid() && fresh(real_) && fresh(imaginary) && fresh(amplitudes)
    {
      real_ := new real[SAMPLES];
      imaginary := new real[SAMPLES];
      amplitudes := new real[BINS];
    }

    method Load(samples: seq<real>, window: nat -> real) returns (windowSum: real)
      requires Valid() && |samples| == SAMPLES
      modifies real_, imaginary
      ensures Fft.Snapshot(real_, imaginary) == Windowed(samples, window)
      ensures windowSum == WindowSum(window, SAMPLES)
    {
      hide Tap;
      windowSum := 0.0;
      for index := 0 to SAMPLES
        invariant windowSum == WindowSum(window, index)
        invariant forall i :: 0 <= i < index ==> real_[i] == Tap(samples[i], window(i)) && imaginary[i] == 0.0
      {
        real_[index] := Tap(samples[index], window(index));
        imaginary[index] := 0.0;
        windowSum := windowSum + window(index);
      }
      assert Fft.Snapshot(real_, imaginary) == Windowed(samples, window);
    }

    /** The amplitude of every bin, and the dominant one from firstBin on. */
    method SelectDominant(firstBin: nat, sqrt: real -> real, windowSum: real) returns (bin: nat, amplitude: real)
      requires Valid() && firstBin >= 1 && windowSum != 0.0
      modifies amplitudes
      ensures forall b :: 0 <= b < BINS ==>
        amplitudes[b] == Amplitude(Fft.Snapshot(real_, imaginary)[b], sqrt, windowSum, b)
      ensures Dominant(amplitudes[..], firstBin, BINS, bin, amplitude)
    {
      hide Amplitude;
      ghost var z := Fft.Snapshot(real_, imaginary);
      bin, amplitude := 0, 0.0;
      for b := 0 to BINS
        invariant Fft.Snapshot(real_, imaginary) == z
        invariant forall i :: 0 <= i < b ==> amplitudes[i] == Amplitude(z[i], sqrt, windowSum, i)
        invariant Dominant(amplitudes[..], firstBin, b, bin, amplitude)
      {
        ghost var previous := amplitudes[..];
        amplitudes[b] := Amplitude(Complex(real_[b], imaginary[b]), sqrt, windowSum, b);
        assert forall i :: 0 <= i < b ==> amplitudes[..][i] == previous[i];
        if b >= firstBin && amplitudes[b] > amplitude {
          bin, amplitude := b, amplitudes[b];
        }
      }
    }

    /** The dominant component of the windowed signal's exact transform. */
    method Analyze(samples: seq<real>, rate: real, minimumFrequency: real,
                   window: nat -> real, root: nat -> Complex, sqrt: real -> real)
      returns (result: FrequencyMetrics)
      requires Valid() && |samples| == SAMPLES
      requires WindowSum(window, SAMPLES) > 0.0 && Fft.RootsOfUnity(root)
      modifies real_, imaginary, amplitudes
      ensures IsAnalysis(result, samples, rate, minimumFrequency, window, root, sqrt)
      ensures rate > 0.0 && FirstBin(rate, minimumFrequency) < BINS ==>
        amplitudes[..] == Amplitudes(samples, window, root, sqrt)
    {
      hide Mul, Add, Sub, Pow, Amplitude, Dominant, Tap, Fft.Dft, Fft.RootsOfUnity, WindowSum;
      result := NO_METRICS;
      if !(rate > 0.0) {
        return;
      }
      var windowSum := Load(samples, window);
      Pow2Values();
      Fft.Transform(real_, imaginary, root, 8);
      var firstBin := FirstBin(rate, minimumFrequency);
      if firstBin >= BINS {
        return;
      }
      var bin, amplitude := SelectDominant(firstBin, sqrt, windowSum);
      assert amplitudes[..] == Amplitudes(samples, window, root, sqrt);
      result := FrequencyMetrics(BinFrequency(rate, bin), amplitude, bin);
    }
  }

  /** Every sample is weighted by its own window value. */
  lemma WindowedAt(samples: seq<real>, window: nat -> real, i: nat)
    requires i < |samples|
    ensures Windowed(samples, window)[i] == Complex(samples[i] * window(i), 0.0)
  {
  }

  lemma {:induction false} WindowSumIsSum(window: nat -> real, n: nat)
    ensures WindowSum(window, n) == Sum(seq(n, i requires 0 <= i < n => window(i)))
    decreases n
  {
    if n > 0 {
      var s := seq(n, i requires 0 <= i < n => window(i));
      assert s[..n - 1] == seq(n - 1, i requires 0 <= i < n - 1 => window(i));
      WindowSumIsSum(window, n - 1);
    }
  }

  /** Bins divide the rate into 256 equal steps. */
  lemma BinsDivideRate(rate: real, bin: nat)
    ensures BinFrequency(rate, bin) * 256.0 == bin as real * rate
  {
    ThreeFactors(bin as real, rate / 256.0, rate);
  }

  lemma ThreeFactors(b: real, w: real, rate: real)
    requires w * 256.0 == rate
    ensures b * w * 256.0 == b * rate
  {
  }

  /** The first admissible bin is the lowest one from 1 on that reaches the minimum. */
  lemma FirstBinIsLeast(rate: real, minimumFrequency: real, bin: nat)
    requires rate > 0.0 && bin >= 1
    ensures bin >= FirstBin(rate, minimumFrequency) <==> BinFrequency(rate, bin) >= minimumFrequency
  {
    var w := BinWidth(rate);
    QuotientReached(bin as real, minimumFrequency / w, w, minimumFrequency);
  }

  lemma QuotientReached(b: real, q: real, w: real, minimum: real)
    requires w > 0.0 && q * w == minimum
    ensures b >= q <==> b * w >= minimum
  {
    if b >= q {
      MulLe(q, b, w);
    } else {
      MulLt(b, q, w);
    }
  }

  lemma BelowHalfRate(rate: real, bin: nat)
    requires rate > 0.0 && bin < BINS
    ensures BinFrequency(rate, bin) < rate / 2.0
  {
    var w := BinWidth(rate);
    MulLt(bin as real, 128.0, w);
    assert bin as real * w < 128.0 * w;
    assert 128.0 * w == rate / 2.0;
  }

  /** A selected frequency is at or above the minimum and below half the rate. */
  lemma DominantFrequencyRange(rate: real, minimumFrequency: real, bin: nat)
    requires rate > 0.0 && FirstBin(rate, minimumFrequency) <= bin < BINS
    ensures minimumFrequency <= BinFrequency(rate, bin) < rate / 2.0
  {
    var w := BinWidth(rate);
    var c := Ceiling(minimumFrequency / w);
    assert minimumFrequency == minimumFrequency / w * w;
    MulLe(minimumFrequency / w, bin as real, w);
    BelowHalfRate(rate, bin);
  }

  /** Comparing amplitudes of bins above 0 is comparing the power of the transform. */
  lemma AmplitudeOrdersPower(y: Complex, z: Complex, sqrt: real -> real, windowSum: real, i: nat, j: nat)
    requires IsSqrt(sqrt) && windowSum > 0.0 && i >= 1 && j >= 1
    ensures Amplitude(y, sqrt, windowSum, i) <= Amplitude(z, sqrt, windowSum, j)
       <==> SquaredMagnitude(y) <= SquaredMagnitude(z)
  {
    var a, b := sqrt(SquaredMagnitude(y)), sqrt(SquaredMagnitude(z));
    ScaleOrder(2.0 * a, 2.0 * b, windowSum);
    SquareOrder(a, b);
  }

  lemma ScaleOrder(a: real, b: real, w: real)
    requires w > 0.0
    ensures a <= b <==> a / w <= b / w
  {
    var c, d := a / w, b / w;
    assert a == c * w && b == d * w;
    if c <= d {
      MulLe(c, d, w);
    } else {
      MulLt(d, c, w);
    }
  }
}
