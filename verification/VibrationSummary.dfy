/** The one-line vibration summary: bounds check, fixed-point rounding and decimal
    printing on the node. */
module VibrationSummary {
  import opened Words
  import opened Reals
  import opened Complex
  import Features
  import Fft
  import Spectrum
  import SpectrumBounds

  const MAXIMUM_BYTES: nat := 244

  datatype Axes<+T> = Axes(x: T, y: T, z: T)

  datatype WindowResult = WindowResult(
    rate: real,
    accelRms: Axes<real>, accelPeak: Axes<real>, crest: Axes<real>, kurtosis: Axes<real>,
    dominantFrequency: Axes<real>, dominantAmplitude: Axes<real>, gyroRms: Axes<real>)

  // ----- Bounds -----

  predicate Within(a: Axes<real>, maximum: real) {
    0.0 <= a.x <= maximum && 0.0 <= a.y <= maximum && 0.0 <= a.z <= maximum
  }

  predicate MetricsAreBounded(v: WindowResult) {
    && Within(v.accelRms, 16.0) && Within(v.accelPeak, 16.0) && Within(v.crest, 100.0) && Within(v.kurtosis, 1000.0)
    && Within(v.gyroRms, 2000.0)
    && Within(v.dominantFrequency, 250.0) && Within(v.dominantAmplitude, 16.0)
    && 0.0 < v.rate <= 500.0
  }

  // ----- Fixed point -----

  /** lround of a non-negative value in wire units. */
  function ToWire(v: real, scale: real): int {
    (v * scale + 0.5).Floor
  }

  lemma ToWireNear(v: real, scale: real, maximum: nat)
    requires v >= 0.0 && scale > 0.0 && v * scale <= maximum as real
    ensures 0 <= ToWire(v, scale) <= maximum
    ensures -0.5 <= ToWire(v, scale) as real - v * scale <= 0.5
  {
    assert v * scale >= 0.0;
  }

  datatype Wire = Wire(
    sequence: nat, uptime: nat, f: nat,
    r: Axes<nat>, p: Axes<nat>, c: Axes<nat>, k: Axes<nat>, d: Axes<nat>, x: Axes<nat>, g: Axes<nat>)

  function AxesToWire(a: Axes<real>, scale: real): Axes<int> {
    Axes(ToWire(a.x, scale), ToWire(a.y, scale), ToWire(a.z, scale))
  }

  predicate AtMost(a: Axes<int>, maximum: int) {
    0 <= a.x <= maximum && 0 <= a.y <= maximum && 0 <= a.z <= maximum
  }

  lemma AxesToWireAtMost(a: Axes<real>, scale: real, maximum: real, wireMaximum: nat)
    requires Within(a, maximum) && scale > 0.0 && maximum * scale == wireMaximum as real
    ensures AtMost(AxesToWire(a, scale), wireMaximum)
  {
    hide ToWire;
    ToWireAtMost(a.x, scale, maximum, wireMaximum);
    ToWireAtMost(a.y, scale, maximum, wireMaximum);
    ToWireAtMost(a.z, scale, maximum, wireMaximum);
  }

  lemma ToWireAtMost(v: real, scale: real, maximum: real, wireMaximum: nat)
    requires 0.0 <= v <= maximum && scale > 0.0 && maximum * scale == wireMaximum as real
    ensures 0 <= ToWire(v, scale) <= wireMaximum
  {
    hide ToWire;
    var scaled := v * scale;
    MulLe(v, maximum, scale);
    assert scaled <= wireMaximum as real;
    ToWireNear(v, scale, wireMaximum);
  }

  /** The limits of every wire field. */
  predicate WireBounded(w: Wire) {
    && w.sequence < WORD && w.uptime < WORD && w.f <= 5000
    && AtMost(w.r, 16000) && AtMost(w.p, 16000) && AtMost(w.c, 1000) && AtMost(w.k, 10000)
    && AtMost(w.d, 2500) && AtMost(w.x, 16000) && AtMost(w.g, 20000)
  }

  function WireOf(v: WindowResult, sequence: u32, uptime: u32): (w: Wire)
    requires MetricsAreBounded(v)
    ensures WireBounded(w)
  {
    AxesToWireAtMost(v.accelRms, 1000.0, 16.0, 16000);
    AxesToWireAtMost(v.accelPeak, 1000.0, 16.0, 16000);
    AxesToWireAtMost(v.crest, 10.0, 100.0, 1000);
    AxesToWireAtMost(v.kurtosis, 10.0, 1000.0, 10000);
    AxesToWireAtMost(v.dominantFrequency, 10.0, 250.0, 2500);
    AxesToWireAtMost(v.dominantAmplitude, 1000.0, 16.0, 16000);
    AxesToWireAtMost(v.gyroRms, 10.0, 2000.0, 20000);
    ToWireNear(v.rate, 10.0, 5000);
    Wire(sequence, uptime, ToWire(v.rate, 10.0),
         AxesToWire(v.accelRms, 1000.0), AxesToWire(v.accelPeak, 1000.0), AxesToWire(v.crest, 10.0),
         AxesToWire(v.kurtosis, 10.0), AxesToWire(v.dominantFrequency, 10.0),
         AxesToWire(v.dominantAmplitude, 1000.0), AxesToWire(v.gyroRms, 10.0))
  }

  // ----- Decimal printing -----

  predicate IsDigit(c: char) {
    '0' <= c <= '9'
  }

  function DigitChar(d: nat): char
    requires d < 10
  {
    '0' + d as char
  }

  function DigitValue(c: char): nat
    requires IsDigit(c)
  {
    (c - '0') as nat
  }

  /** %lu: the decimal digits without leading zeros. */
  function Decimal(n: nat): (s: string)
    ensures s != "" && forall i :: 0 <= i < |s| ==> IsDigit(s[i])
  {
    if n < 10 then [DigitChar(n)] else Decimal(n / 10) + [DigitChar(n % 10)]
  }

  function ParseDecimal(s: string): nat
    requires forall i :: 0 <= i < |s| ==> IsDigit(s[i])
  {
    if s == "" then 0 else ParseDecimal(s[..|s| - 1]) * 10 + DigitValue(s[|s| - 1])
  }

  lemma {:induction false} DecimalRoundTrip(n: nat)
    ensures ParseDecimal(Decimal(n)) == n
  {
    if n < 10 {
      assert Decimal(n)[..0] == "";
      assert ParseDecimal("") == 0;
    } else {
      DecimalRoundTrip(n / 10);
      assert Decimal(n)[..|Decimal(n)| - 1] == Decimal(n / 10);
    }
  }

  /** No leading zeros. */
  lemma {:induction false} DecimalCanonical(n: nat)
    ensures Decimal(n)[0] == '0' <==> n == 0
    ensures n == 0 ==> Decimal(n) == "0"
    decreases n
  {
    if n >= 10 {
      DecimalCanonical(n / 10);
    }
  }

  function Pow10(n: nat): nat {
    if n == 0 then 1 else 10 * Pow10(n - 1)
  }

  lemma {:induction false} DecimalLength(n: nat, digits: nat)
    requires digits >= 1 && n < Pow10(digits)
    ensures |Decimal(n)| <= digits
    decreases digits
  {
    if n >= 10 {
      assert digits > 1;
      DecimalLength(n / 10, digits - 1);
    }
  }

  // ----- The message -----

  /** Text before a number, and the number. */
  datatype Part = Part(literal: string, number: nat)

  function Render(parts: seq<Part>, tail: string): string {
    if parts == [] then tail else parts[0].literal + Decimal(parts[0].number) + Render(parts[1..], tail)
  }

  function AxisParts(name: string, a: Axes<nat>): seq<Part> {
    [Part(name, a.x), Part(",", a.y), Part(",", a.z)]
  }

  /** The format string, cut at its conversions. */
  function Parts(w: Wire): seq<Part> {
    [Part("{\"t\":\"v\",\"v\":", 1), Part(",\"s\":", w.sequence), Part(",\"m\":", w.uptime), Part(",\"a\":", 1),
     Part(",\"f\":", w.f), Part(",\"q\":", 1)]
    + AxisParts(",\"r\":[", w.r) + AxisParts("],\"p\":[", w.p) + AxisParts("],\"c\":[", w.c)
    + AxisParts("],\"k\":[", w.k) + AxisParts("],\"d\":[", w.d) + AxisParts("],\"x\":[", w.x) + AxisParts("],\"g\":[", w.g)
  }

  function Print(w: Wire): string {
    Render(Parts(w), "]}")
  }

  // ----- Length -----

  ghost function Budget(parts: seq<Part>, digits: seq<nat>): nat
    requires |parts| == |digits|
  {
    if parts == [] then 0 else |parts[0].literal| + digits[0] + Budget(parts[1..], digits[1..])
  }

  lemma {:induction false} RenderLength(parts: seq<Part>, tail: string, digits: seq<nat>)
    requires |parts| == |digits|
    requires forall i :: 0 <= i < |parts| ==> digits[i] >= 1 && parts[i].number < Pow10(digits[i])
    ensures |Render(parts, tail)| <= Budget(parts, digits) + |tail|
    decreases |parts|
  {
    if parts != [] {
      DecimalLength(parts[0].number, digits[0]);
      RenderLength(parts[1..], tail, digits[1..]);
    }
  }

  lemma Pow10Values()
    ensures Pow10(1) == 10 && Pow10(4) == 10000 && Pow10(5) == 100000 && Pow10(10) == 10000000000
  {
    assert Pow10(2) == 100;
    assert Pow10(4) == 10000;
    assert Pow10(7) == 10000000;
  }

  /** The widest decimal form of each field. */
  const DIGITS: seq<nat> :=
    [1, 10, 10, 1, 4, 1, 5, 5, 5, 5, 5, 5, 4, 4, 4, 5, 5, 5, 4, 4, 4, 5, 5, 5, 5, 5, 5]

  lemma BudgetUnfold(parts: seq<Part>, digits: seq<nat>, n: nat)
    requires |parts| == |digits| && n <= |parts|
    ensures Budget(parts[n..], digits[n..]) ==
      if n == |parts| then 0 else |parts[n].literal| + digits[n] + Budget(parts[n + 1..], digits[n + 1..])
  {
    if n < |parts| {
      assert parts[n..][1..] == parts[n + 1..] && digits[n..][1..] == digits[n + 1..];
    }
  }

  lemma TotalBudget(w: Wire)
    ensures |Parts(w)| == |DIGITS| && Budget(Parts(w), DIGITS) == 226
  {
    var parts := Parts(w);
    assert |parts| == 27;
    assert parts[0..] == parts && DIGITS[0..] == DIGITS;
    var n := 27;
    ghost var total := 0;
    while n > 0
      invariant 0 <= n <= 27
      invariant total == Budget(parts[n..], DIGITS[n..])
      invariant total == if n == 27 then 0 else Expected(n)
    {
      n := n - 1;
      BudgetUnfold(parts, DIGITS, n);
      total := |parts[n].literal| + DIGITS[n] + total;
      PartLiteral(w, n);
    }
    ExpectedTotal();
  }

  /** Characters from part n to the last number. */
  ghost function Expected(n: nat): nat
    requires n <= 27
    decreases 27 - n
  {
    if n == 27 then 0 else LiteralLength(n) + DIGITS[n] + Expected(n + 1)
  }

  ghost function LiteralLength(n: nat): nat {
    if n == 0 then 13 else if n < 6 then 5 else if n == 6 then 6 else if n % 3 == 0 then 7 else 1
  }

  lemma PartLiteral(w: Wire, n: nat)
    requires n < 27
    ensures |Parts(w)| == 27 && |Parts(w)[n].literal| == LiteralLength(n)
  {
  }

  lemma ExpectedTotal()
    ensures Expected(0) == 226
  {
    assert Expected(26) == 6;
    assert Expected(24) == 24;
    assert Expected(21) == 48;
    assert Expected(18) == 69;
    assert Expected(15) == 93;
    assert Expected(12) == 114;
    assert Expected(9) == 138;
    assert Expected(6) == 161;
    assert Expected(3) == 182;
  }

  /** Every bounded summary prints in at most 228 characters. */
  lemma PrintLength(w: Wire)
    requires WireBounded(w)
    ensures |Print(w)| <= 228
  {
    hide Render, Budget, Parts;
    TotalBudget(w);
    NumbersFit(w);
    RenderLength(Parts(w), "]}", DIGITS);
  }

  lemma NumbersFit(w: Wire)
    requires WireBounded(w)
    ensures |Parts(w)| == |DIGITS|
    ensures forall i :: 0 <= i < |Parts(w)| ==> DIGITS[i] >= 1 && Parts(w)[i].number < Pow10(DIGITS[i])
  {
    hide Pow10;
    Pow10Values();
  }

  /** encodeVibrationSummary: the length limit never rejects, so the result depends
      on the buffer size and the bounds alone. */
  method EncodeVibrationSummary(v: WindowResult, sequence: u32, uptime: u32, outputSize: nat)
    returns (ok: bool, text: string)
    ensures ok <==> outputSize >= 244 && MetricsAreBounded(v)
    ensures ok ==> text == Print(WireOf(v, sequence, uptime)) && |text| <= 228
  {
    hide Print, WireOf;
    text := "";
    if outputSize < MAXIMUM_BYTES || !MetricsAreBounded(v) {
      return false, text;
    }
    var w := WireOf(v, sequence, uptime);
    assert WireBounded(w);
    PrintLength(w);
    text := Print(w);
    ok := |text| < outputSize && |text| <= MAXIMUM_BYTES;
  }

  // ----- Reading the numbers back -----

  predicate NoDigit(s: string) {
    forall i :: 0 <= i < |s| ==> !IsDigit(s[i])
  }

  function DigitPrefix(s: string): (n: nat)
    ensures n <= |s| && (forall i :: 0 <= i < n ==> IsDigit(s[i])) && (n < |s| ==> !IsDigit(s[n]))
  {
    if s == "" || !IsDigit(s[0]) then 0 else DigitPrefix(s[1..]) + 1
  }

  /** The maximal digit runs of a text, as numbers. */
  function Scan(s: string): seq<nat>
    decreases |s|
  {
    if s == "" then []
    else if IsDigit(s[0]) then
      var n := DigitPrefix(s);
      [ParseDecimal(s[..n])] + Scan(s[n..])
    else Scan(s[1..])
  }

  lemma {:induction false} ScanLiteral(literal: string, rest: string)
    requires NoDigit(literal)
    ensures Scan(literal + rest) == Scan(rest)
    decreases |literal|
  {
    if literal == "" {
      assert literal + rest == rest;
    } else {
      assert (literal + rest)[1..] == literal[1..] + rest;
      ScanLiteral(literal[1..], rest);
    }
  }

  lemma ScanNumber(digits: string, rest: string)
    requires digits != "" && (forall i :: 0 <= i < |digits| ==> IsDigit(digits[i]))
    requires rest != "" && !IsDigit(rest[0])
    ensures Scan(digits + rest) == [ParseDecimal(digits)] + Scan(rest)
  {
    var s := digits + rest;
    var n := DigitPrefix(s);
    assert s[|digits|] == rest[0] && forall i :: 0 <= i < |digits| ==> s[i] == digits[i];
    assert s[..n] == digits && s[n..] == rest;
  }

  ghost predicate Separated(parts: seq<Part>) {
    forall i :: 0 <= i < |parts| ==> parts[i].literal != "" && NoDigit(parts[i].literal)
  }

  ghost function Numbers(parts: seq<Part>): seq<nat> {
    seq(|parts|, i requires 0 <= i < |parts| => parts[i].number)
  }

  lemma {:induction false} ScanRender(parts: seq<Part>, tail: string)
    requires Separated(parts) && tail != "" && NoDigit(tail)
    ensures Scan(Render(parts, tail)) == Numbers(parts)
    ensures Render(parts, tail) != "" && !IsDigit(Render(parts, tail)[0])
    decreases |parts|
  {
    hide Decimal, Scan;
    if parts == [] {
      ScanLiteral(tail, "");
      assert tail + "" == tail;
      ScanEmpty();
    } else {
      var rest := Render(parts[1..], tail);
      ScanRender(parts[1..], tail);
      var p := parts[0];
      assert Render(parts, tail) == p.literal + (Decimal(p.number) + rest);
      ScanLiteral(p.literal, Decimal(p.number) + rest);
      ScanNumber(Decimal(p.number), rest);
      DecimalRoundTrip(p.number);
      assert Numbers(parts) == [p.number] + Numbers(parts[1..]);
    }
  }

  lemma ScanEmpty()
    ensures Scan("") == []
  {
  }

  /** The printed message carries every field: its numbers, read back in order, are
      the fields that were printed. */
  lemma PrintReadsBack(w: Wire)
    ensures Scan(Print(w)) == Numbers(Parts(w))
  {
    hide Render, Scan;
    assert Separated(Parts(w)) && NoDigit("]}") by {
      PartsSeparated(w);
    }
    ScanRender(Parts(w), "]}");
  }

  lemma AxisSeparated(name: string, a: Axes<nat>)
    requires name != "" && NoDigit(name)
    ensures Separated(AxisParts(name, a))
  {
    assert NoDigit(",");
  }

  lemma SeparatedJoin(p: seq<Part>, q: seq<Part>)
    requires Separated(p) && Separated(q)
    ensures Separated(p + q)
  {
  }

  lemma HeadSeparated(w: Wire)
    ensures Separated(
      [Part("{\"t\":\"v\",\"v\":", 1), Part(",\"s\":", w.sequence), Part(",\"m\":", w.uptime), Part(",\"a\":", 1),
       Part(",\"f\":", w.f), Part(",\"q\":", 1)])
  {
  }

  lemma PartsSeparated(w: Wire)
    ensures Separated(Parts(w)) && NoDigit("]}")
  {
    hide Separated, AxisParts;
    HeadSeparated(w);
    AxisSeparated(",\"r\":[", w.r);
    AxisSeparated("],\"p\":[", w.p);
    AxisSeparated("],\"c\":[", w.c);
    AxisSeparated("],\"k\":[", w.k);
    AxisSeparated("],\"d\":[", w.d);
    AxisSeparated("],\"x\":[", w.x);
    AxisSeparated("],\"g\":[", w.g);
    var h := [Part("{\"t\":\"v\",\"v\":", 1), Part(",\"s\":", w.sequence), Part(",\"m\":", w.uptime), Part(",\"a\":", 1),
              Part(",\"f\":", w.f), Part(",\"q\":", 1)];
    var r := h + AxisParts(",\"r\":[", w.r);
    var p := r + AxisParts("],\"p\":[", w.p);
    var c := p + AxisParts("],\"c\":[", w.c);
    var k := c + AxisParts("],\"k\":[", w.k);
    var d := k + AxisParts("],\"d\":[", w.d);
    var x := d + AxisParts("],\"x\":[", w.x);
    SeparatedJoin(h, AxisParts(",\"r\":[", w.r));
    SeparatedJoin(r, AxisParts("],\"p\":[", w.p));
    SeparatedJoin(p, AxisParts("],\"c\":[", w.c));
    SeparatedJoin(c, AxisParts("],\"k\":[", w.k));
    SeparatedJoin(k, AxisParts("],\"d\":[", w.d));
    SeparatedJoin(d, AxisParts("],\"x\":[", w.x));
    SeparatedJoin(x, AxisParts("],\"g\":[", w.g));
  }

  // ----- Computed windows -----

  /** The parameters of the window processor. */
  datatype Processor = Processor(minimumFrequency: real, window: nat -> real, root: nat -> Complex, sqrt: real -> real) {
    ghost predicate Valid() {
      && IsSqrt(sqrt) && Fft.RootsOfUnity(root)
      && (forall i: nat :: window(i) >= 0.0) && Spectrum.WindowSum(window, Spectrum.SAMPLES) > 0.0
    }
  }

  /** One acceleration axis as the processor computes it from its samples. */
  ghost predicate ComputedAccel(p: Processor, samples: seq<real>, rate: real, m: Features.AxisMetrics, f: Spectrum.FrequencyMetrics)
    requires p.Valid()
  {
    && |samples| == Spectrum.SAMPLES && Features.Describes(m, samples, p.sqrt)
    && Spectrum.IsAnalysis(f, samples, rate, p.minimumFrequency, p.window, p.root, p.sqrt)
  }

  ghost predicate ComputedGyro(p: Processor, samples: seq<real>, m: Features.AxisMetrics) {
    |samples| == Spectrum.SAMPLES && Features.Describes(m, samples, p.sqrt)
  }

  lemma ComputedAccelBounds(p: Processor, samples: seq<real>, rate: real, m: Features.AxisMetrics, f: Spectrum.FrequencyMetrics)
    requires p.Valid() && 0.0 < rate <= 500.0 && ComputedAccel(p, samples, rate, m, f)
    ensures 0.0 <= m.crestFactor <= 100.0 && 0.0 <= m.kurtosis <= 1000.0 && 0.0 <= m.rms <= m.peak
    ensures 0.0 <= f.frequency <= 250.0 && 0.0 <= f.amplitude <= 2.0 * m.peak
  {
    hide Spectrum.IsAnalysis, Fft.RootsOfUnity, IsSqrt, Spectrum.WindowSum;
    PeakBounds(p, samples, m);
    hide Features.Describes, SpectrumBounds.BoundedBy;
    Features.WindowWithinEncoderLimits(samples, m, p.sqrt);
    SpectrumBounds.AnalysisBounds(f, samples, m.peak, rate, p.minimumFrequency, p.window, p.root, p.sqrt);
  }

  lemma PeakBounds(p: Processor, samples: seq<real>, m: Features.AxisMetrics)
    requires p.Valid() && |samples| == Spectrum.SAMPLES && Features.Describes(m, samples, p.sqrt)
    ensures SpectrumBounds.BoundedBy(samples, m.peak, p.window)
  {
    hide IsSqrt, Fft.RootsOfUnity, Spectrum.WindowSum;
    assert Abs(samples[0]) <= m.peak;
  }

  /** The result of a window, from the metrics of its six axes. */
  function ResultOf(rate: real, m: Axes<Features.AxisMetrics>, f: Axes<Spectrum.FrequencyMetrics>,
                    g: Axes<Features.AxisMetrics>): WindowResult {
    WindowResult(rate, Axes(m.x.rms, m.y.rms, m.z.rms), Axes(m.x.peak, m.y.peak, m.z.peak),
                 Axes(m.x.crestFactor, m.y.crestFactor, m.z.crestFactor), Axes(m.x.kurtosis, m.y.kurtosis, m.z.kurtosis),
                 Axes(f.x.frequency, f.y.frequency, f.z.frequency), Axes(f.x.amplitude, f.y.amplitude, f.z.amplitude),
                 Axes(g.x.rms, g.y.rms, g.z.rms))
  }

  /** A computed window is refused only for its size: an acceleration peak or amplitude
      above 16 g, or an angular rate above 2000 degrees per second. Below a peak of 8 g
      on every axis the amplitudes never are the reason. */
  lemma ComputedWindowBounded(p: Processor, rate: real, a: Axes<seq<real>>, w: Axes<seq<real>>,
                              m: Axes<Features.AxisMetrics>, f: Axes<Spectrum.FrequencyMetrics>, g: Axes<Features.AxisMetrics>)
    requires p.Valid() && 0.0 < rate <= 500.0
    requires ComputedAccel(p, a.x, rate, m.x, f.x) && ComputedAccel(p, a.y, rate, m.y, f.y) && ComputedAccel(p, a.z, rate, m.z, f.z)
    requires ComputedGyro(p, w.x, g.x) && ComputedGyro(p, w.y, g.y) && ComputedGyro(p, w.z, g.z)
    ensures var v := ResultOf(rate, m, f, g);
      && (MetricsAreBounded(v) <==>
            && v.accelPeak.x <= 16.0 && v.accelPeak.y <= 16.0 && v.accelPeak.z <= 16.0
            && v.dominantAmplitude.x <= 16.0 && v.dominantAmplitude.y <= 16.0 && v.dominantAmplitude.z <= 16.0
            && v.gyroRms.x <= 2000.0 && v.gyroRms.y <= 2000.0 && v.gyroRms.z <= 2000.0)
      && (v.accelPeak.x <= 8.0 && v.accelPeak.y <= 8.0 && v.accelPeak.z <= 8.0 ==>
            (MetricsAreBounded(v) <==> v.gyroRms.x <= 2000.0 && v.gyroRms.y <= 2000.0 && v.gyroRms.z <= 2000.0))
  {
    ComputedAccelBounds(p, a.x, rate, m.x, f.x);
    ComputedAccelBounds(p, a.y, rate, m.y, f.y);
    ComputedAccelBounds(p, a.z, rate, m.z, f.z);
    hide Features.Describes, Spectrum.IsAnalysis, IsSqrt, Fft.RootsOfUnity, Spectrum.WindowSum;
    Features.RmsBelowPeak(w.x, g.x, p.sqrt);
    Features.RmsBelowPeak(w.y, g.y, p.sqrt);
    Features.RmsBelowPeak(w.z, g.z, p.sqrt);
  }
}
