/** The gateway's reading of a vibration summary, and what it recovers of the
    node's values. */
module TelemetryParser {
  import opened Words
  import opened Reals
  import opened VibrationSummary

  /** A decoded JSON value: NonFinite stands for the infinities and not-a-number that
      the decoder lets through, JsonOther for strings, null and objects. */
  datatype Json = Number(value: real) | NonFinite | Boolean(flag: bool) | List(items: seq<Json>) | JsonOther

  predicate IsNumeric(j: Json) {
    j.Number? || j.NonFinite?
  }

  type Payload = map<string, Json>

  const FIELDS: set<string> := {"t", "v", "s", "m", "a", "f", "q", "r", "p", "c", "k", "d", "x", "g"}

  datatype Summary = Summary(
    windowSequence: int, uptime: int, rate: real, valid: bool,
    accelRms: Axes<real>, accelPeak: Axes<real>, crest: Axes<real>, kurtosis: Axes<real>,
    dominantFrequency: Axes<real>, dominantAmplitude: Axes<real>, gyroRms: Axes<real>)

  datatype Result<+T> = Parsed(value: T) | ParseError {
    predicate IsFailure() {
      ParseError?
    }
    function PropagateFailure<U>(): Result<U>
      requires ParseError?
    {
      ParseError
    }
    function Extract(): T
      requires Parsed?
    {
      value
    }
  }

  /** Equality with an integer literal: booleans count as 0 and 1. */
  predicate Equals(j: Json, n: int) {
    match j
    case Number(v) => v == n as real
    case Boolean(b) => n == if b then 1 else 0
    case _ => false
  }

  /** A number, not a boolean, finite and within the given range. */
  function FiniteNumber(j: Json, minimum: real, maximum: real): (r: Result<real>)
    ensures r.Parsed? <==> j.Number? && minimum <= j.value <= maximum
    ensures r.Parsed? ==> r.value == j.value
  {
    if !IsNumeric(j) then ParseError
    else if j.NonFinite? then ParseError
    else if j.value < minimum || j.value > maximum then ParseError
    else Parsed(j.value)
  }

  /** A 32-bit number, truncated to an integer. */
  function Uint32(j: Json): Result<int> {
    var v :- FiniteNumber(j, 0.0, 4294967295.0);
    Parsed(v.Floor)
  }

  function BoundedAxis(payload: Payload, name: string, maximum: real, scale: real): Result<Axes<real>>
    requires scale > 0.0
  {
    if name !in payload || !payload[name].List? || |payload[name].items| != 3 then ParseError
    else
      var items := payload[name].items;
      var x :- FiniteNumber(items[0], 0.0, maximum);
      var y :- FiniteNumber(items[1], 0.0, maximum);
      var z :- FiniteNumber(items[2], 0.0, maximum);
      Parsed(Axes(x / scale, y / scale, z / scale))
  }

  datatype AxisFields = AxisFields(
    r: Axes<real>, p: Axes<real>, c: Axes<real>, k: Axes<real>, d: Axes<real>, x: Axes<real>, g: Axes<real>)

  function ParseAxes(payload: Payload): Result<AxisFields> {
    var r :- BoundedAxis(payload, "r", 16000.0, 1000.0);
    var p :- BoundedAxis(payload, "p", 16000.0, 1000.0);
    var c :- BoundedAxis(payload, "c", 1000.0, 10.0);
    var k :- BoundedAxis(payload, "k", 10000.0, 10.0);
    var d :- BoundedAxis(payload, "d", 2500.0, 10.0);
    var x :- BoundedAxis(payload, "x", 16000.0, 1000.0);
    var g :- BoundedAxis(payload, "g", 20000.0, 10.0);
    Parsed(AxisFields(r, p, c, k, d, x, g))
  }

  /** _parse_vibration with the constraints of the summary model. */
  function ParseVibration(payload: Payload): Result<Summary> {
    if payload.Keys != FIELDS then ParseError
    else if !Equals(payload["v"], 1) || !Equals(payload["a"], 1) then ParseError
    else if !Equals(payload["q"], 0) && !Equals(payload["q"], 1) then ParseError
    else
      var sequence :- Uint32(payload["s"]);
      var uptime :- Uint32(payload["m"]);
      var f :- FiniteNumber(payload["f"], 1.0, 5000.0);
      var a :- ParseAxes(payload);
      if sequence == 0 then ParseError
      else Parsed(Summary(sequence, uptime, f / 10.0, Equals(payload["q"], 1), a.r, a.p, a.c, a.k, a.d, a.x, a.g))
  }

  // ----- From the printed message to the payload -----

  function Num(n: nat): Json {
    Number(n as real)
  }

  function ListOf(n: seq<nat>, i: nat): Json
    requires i + 3 <= |n|
  {
    List([Num(n[i]), Num(n[i + 1]), Num(n[i + 2])])
  }

  /** The object that the printed message denotes, from its numbers in order. */
  function PayloadOf(n: seq<nat>): Payload
    requires |n| == 27
  {
    map["t" := JsonOther, "v" := Num(n[0]), "s" := Num(n[1]), "m" := Num(n[2]), "a" := Num(n[3]), "f" := Num(n[4]),
        "q" := Num(n[5]), "r" := ListOf(n, 6), "p" := ListOf(n, 9), "c" := ListOf(n, 12), "k" := ListOf(n, 15),
        "d" := ListOf(n, 18), "x" := ListOf(n, 21), "g" := ListOf(n, 24)]
  }

  function Scaled(a: Axes<nat>, scale: real): Axes<real>
    requires scale > 0.0
  {
    Axes(a.x as real / scale, a.y as real / scale, a.z as real / scale)
  }

  lemma AxisAccepted(payload: Payload, name: string, a: Axes<nat>, maximum: nat, scale: real)
    requires name in payload && payload[name] == List([Num(a.x), Num(a.y), Num(a.z)])
    requires AtMost(a, maximum) && scale > 0.0
    ensures BoundedAxis(payload, name, maximum as real, scale) == Parsed(Scaled(a, scale))
  {
  }

  /** The gateway accepts a bounded wire message exactly when its sequence and its
      rate field are at least 1, and then reads every field back. */
  lemma WireAccepted(w: Wire)
    requires WireBounded(w)
    ensures |Numbers(Parts(w))| == 27
    ensures ParseVibration(PayloadOf(Numbers(Parts(w)))) ==
      if w.sequence >= 1 && w.f >= 1 then
        Parsed(Summary(w.sequence, w.uptime, w.f as real / 10.0, true,
          Scaled(w.r, 1000.0), Scaled(w.p, 1000.0), Scaled(w.c, 10.0), Scaled(w.k, 10.0),
          Scaled(w.d, 10.0), Scaled(w.x, 1000.0), Scaled(w.g, 10.0)))
      else ParseError
  {
    hide Scaled, PayloadOf, Numbers, Parts, ParseAxes;
    var n := Numbers(Parts(w));
    NumbersOfParts(w);
    PayloadKeys(n);
    PayloadScalars(n);
    AxesAccepted(w, n);
  }

  lemma AxesAccepted(w: Wire, n: seq<nat>)
    requires WireBounded(w) && |n| == 27 && n == Numbers(Parts(w))
    ensures ParseAxes(PayloadOf(n)) == Parsed(AxisFields(
      Scaled(w.r, 1000.0), Scaled(w.p, 1000.0), Scaled(w.c, 10.0), Scaled(w.k, 10.0),
      Scaled(w.d, 10.0), Scaled(w.x, 1000.0), Scaled(w.g, 10.0)))
  {
    hide BoundedAxis, Scaled, PayloadOf, Numbers, Parts;
    NumbersOfParts(w);
    PayloadAxes(n);
    var payload := PayloadOf(n);
    AxisAccepted(payload, "r", w.r, 16000, 1000.0);
    AxisAccepted(payload, "p", w.p, 16000, 1000.0);
    AxisAccepted(payload, "c", w.c, 1000, 10.0);
    AxisAccepted(payload, "k", w.k, 10000, 10.0);
    AxisAccepted(payload, "d", w.d, 2500, 10.0);
    AxisAccepted(payload, "x", w.x, 16000, 1000.0);
    AxisAccepted(payload, "g", w.g, 20000, 10.0);
  }

  lemma NumbersOfParts(w: Wire)
    ensures Numbers(Parts(w)) == [1, w.sequence, w.uptime, 1, w.f, 1,
      w.r.x, w.r.y, w.r.z, w.p.x, w.p.y, w.p.z, w.c.x, w.c.y, w.c.z, w.k.x, w.k.y, w.k.z,
      w.d.x, w.d.y, w.d.z, w.x.x, w.x.y, w.x.z, w.g.x, w.g.y, w.g.z]
  {
  }

  lemma PayloadKeys(n: seq<nat>)
    requires |n| == 27
    ensures PayloadOf(n).Keys == FIELDS
  {
  }

  lemma PayloadScalars(n: seq<nat>)
    requires |n| == 27
    ensures var p := PayloadOf(n);
      && "v" in p && p["v"] == Num(n[0]) && "s" in p && p["s"] == Num(n[1]) && "m" in p && p["m"] == Num(n[2])
      && "a" in p && p["a"] == Num(n[3]) && "f" in p && p["f"] == Num(n[4]) && "q" in p && p["q"] == Num(n[5])
  {
  }

  lemma PayloadAxes(n: seq<nat>)
    requires |n| == 27
    ensures var p := PayloadOf(n);
      && "r" in p && p["r"] == ListOf(n, 6) && "p" in p && p["p"] == ListOf(n, 9) && "c" in p && p["c"] == ListOf(n, 12)
      && "k" in p && p["k"] == ListOf(n, 15) && "d" in p && p["d"] == ListOf(n, 18)
      && "x" in p && p["x"] == ListOf(n, 21) && "g" in p && p["g"] == ListOf(n, 24)
  {
  }

  // ----- Accuracy -----

  predicate Near(a: Axes<real>, b: Axes<real>, tolerance: real) {
    Abs(a.x - b.x) <= tolerance && Abs(a.y - b.y) <= tolerance && Abs(a.z - b.z) <= tolerance
  }

  lemma WireNear(v: real, scale: real, maximum: real, wireMaximum: nat)
    requires 0.0 <= v <= maximum && scale > 0.0 && maximum * scale == wireMaximum as real
    ensures Abs(ToWire(v, scale) as real / scale - v) <= 0.5 / scale
  {
    MulLe(v, maximum, scale);
    ToWireNear(v, scale, wireMaximum);
    DivideError(ToWire(v, scale) as real, v, scale);
  }

  lemma DivideError(n: real, v: real, scale: real)
    requires scale > 0.0 && -0.5 <= n - v * scale <= 0.5
    ensures Abs(n / scale - v) <= 0.5 / scale
  {
    var d := n / scale - v;
    assert d * scale == n - v * scale;
    var t := 0.5 / scale;
    assert t * scale == 0.5;
    if d > t {
      MulLt(t, d, scale);
    } else if d < -t {
      MulLt(d, -t, scale);
    }
  }

  lemma AxesNear(a: Axes<real>, scale: real, maximum: real, wireMaximum: nat)
    requires Within(a, maximum) && scale > 0.0 && maximum * scale == wireMaximum as real
    ensures AtMost(AxesToWire(a, scale), wireMaximum)
    ensures Near(Scaled(AxesToWire(a, scale), scale), a, 0.5 / scale)
  {
    hide ToWire, Abs;
    AxesToWireAtMost(a, scale, maximum, wireMaximum);
    WireNear(a.x, scale, maximum, wireMaximum);
    WireNear(a.y, scale, maximum, wireMaximum);
    WireNear(a.z, scale, maximum, wireMaximum);
  }

  /** End to end: a bounded result, printed and read back, is accepted exactly when
      its sequence is not 0 and its rate at least 0.05 Hz, and then every value is
      recovered within half a wire unit. */
  lemma SummaryRoundTrip(v: WindowResult, sequence: u32, uptime: u32)
    requires MetricsAreBounded(v)
    ensures |Scan(Print(WireOf(v, sequence, uptime)))| == 27
    ensures var parsed := ParseVibration(PayloadOf(Scan(Print(WireOf(v, sequence, uptime)))));
      && (parsed.Parsed? <==> sequence >= 1 && v.rate >= 0.05)
      && (parsed.Parsed? ==>
            var s := parsed.value;
            && s.windowSequence == sequence && s.uptime == uptime && s.valid && Abs(s.rate - v.rate) <= 0.05
            && Near(s.accelRms, v.accelRms, 0.0005) && Near(s.accelPeak, v.accelPeak, 0.0005)
            && Near(s.crest, v.crest, 0.05) && Near(s.kurtosis, v.kurtosis, 0.05)
            && Near(s.dominantFrequency, v.dominantFrequency, 0.05)
            && Near(s.dominantAmplitude, v.dominantAmplitude, 0.0005) && Near(s.gyroRms, v.gyroRms, 0.05))
  {
    hide Print, Scan, Parts, Numbers, ParseVibration, ToWire, Near, Scaled, AxesToWire, Abs;
    var w := WireOf(v, sequence, uptime);
    PrintReadsBack(w);
    WireAccepted(w);
    AxesNear(v.accelRms, 1000.0, 16.0, 16000);
    AxesNear(v.accelPeak, 1000.0, 16.0, 16000);
    AxesNear(v.crest, 10.0, 100.0, 1000);
    AxesNear(v.kurtosis, 10.0, 1000.0, 10000);
    AxesNear(v.dominantFrequency, 10.0, 250.0, 2500);
    AxesNear(v.dominantAmplitude, 1000.0, 16.0, 16000);
    AxesNear(v.gyroRms, 10.0, 2000.0, 20000);
    WireNear(v.rate, 10.0, 500.0, 5000);
    RateField(v.rate);
  }

  lemma RateField(rate: real)
    requires 0.0 < rate <= 500.0
    ensures ToWire(rate, 10.0) >= 1 <==> rate >= 0.05
  {
  }

  // ----- What the gateway accepts -----

  /** A parsed summary as the node's own result type. */
  function AsResult(s: Summary): WindowResult {
    WindowResult(s.rate, s.accelRms, s.accelPeak, s.crest, s.kurtosis, s.dominantFrequency, s.dominantAmplitude, s.gyroRms)
  }

  lemma AxisWithin(payload: Payload, name: string, maximum: real, scale: real, limit: real)
    requires scale > 0.0 && maximum == limit * scale && BoundedAxis(payload, name, maximum, scale).Parsed?
    ensures Within(BoundedAxis(payload, name, maximum, scale).value, limit)
  {
    var items := payload[name].items;
    forall i | 0 <= i < 3
      ensures 0.0 <= items[i].value / scale <= limit
    {
      QuotientWithin(items[i].value, scale, limit);
    }
  }

  lemma QuotientWithin(v: real, scale: real, limit: real)
    requires scale > 0.0 && 0.0 <= v <= limit * scale
    ensures 0.0 <= v / scale <= limit
  {
    var q := v / scale;
    assert q * scale == v;
    if q > limit {
      MulLt(limit, q, scale);
    }
    if q < 0.0 {
      MulLt(q, 0.0, scale);
    }
  }

  /** Whatever payload the gateway accepts, from any sender, lies within the limits the
      node's own encoder enforces, is numbered, and has exactly the expected fields. */
  lemma AcceptedIsBounded(payload: Payload)
    requires ParseVibration(payload).Parsed?
    ensures var s := ParseVibration(payload).value;
      && payload.Keys == FIELDS && MetricsAreBounded(AsResult(s)) && s.rate >= 0.1
      && 1 <= s.windowSequence < WORD && 0 <= s.uptime < WORD
      && (s.valid <==> Equals(payload["q"], 1))
  {
    hide BoundedAxis;
    AxisWithin(payload, "r", 16000.0, 1000.0, 16.0);
    AxisWithin(payload, "p", 16000.0, 1000.0, 16.0);
    AxisWithin(payload, "c", 1000.0, 10.0, 100.0);
    AxisWithin(payload, "k", 10000.0, 10.0, 1000.0);
    AxisWithin(payload, "d", 2500.0, 10.0, 250.0);
    AxisWithin(payload, "x", 16000.0, 1000.0, 16.0);
    AxisWithin(payload, "g", 20000.0, 10.0, 2000.0);
  }

  lemma ToWireExact(n: nat, scale: real)
    requires scale > 0.0
    ensures ToWire(n as real / scale, scale) == n
  {
    var v := n as real / scale;
    assert v * scale == n as real;
  }

  lemma AxesToWireExact(a: Axes<nat>, scale: real)
    requires scale > 0.0
    ensures AxesToWire(Scaled(a, scale), scale) == a
  {
    hide ToWire;
    ToWireExact(a.x, scale);
    ToWireExact(a.y, scale);
    ToWireExact(a.z, scale);
  }

  /** An accepted wire message loses nothing: encoding what the gateway recovered
      gives the same message again. */
  lemma ReencodeParsed(w: Wire)
    requires WireBounded(w) && w.sequence >= 1 && w.f >= 1
    ensures |Numbers(Parts(w))| == 27 && ParseVibration(PayloadOf(Numbers(Parts(w)))).Parsed?
    ensures var s := ParseVibration(PayloadOf(Numbers(Parts(w)))).value;
      && MetricsAreBounded(AsResult(s)) && 0 <= s.windowSequence < WORD && 0 <= s.uptime < WORD
      && WireOf(AsResult(s), s.windowSequence, s.uptime) == w
  {
    hide ToWire, Scaled, AxesToWire, PayloadOf, Numbers, Parts, ParseVibration, MetricsAreBounded;
    WireAccepted(w);
    AcceptedIsBounded(PayloadOf(Numbers(Parts(w))));
    AxesToWireExact(w.r, 1000.0);
    AxesToWireExact(w.p, 1000.0);
    AxesToWireExact(w.c, 10.0);
    AxesToWireExact(w.k, 10.0);
    AxesToWireExact(w.d, 10.0);
    AxesToWireExact(w.x, 1000.0);
    AxesToWireExact(w.g, 10.0);
    ToWireExact(w.f, 10.0);
  }

  // ----- Exactly what is accepted -----

  predicate InBounds(j: Json, minimum: real, maximum: real) {
    j.Number? && minimum <= j.value <= maximum
  }

  predicate AxesInBounds(j: Json, maximum: real) {
    j.List? && |j.items| == 3 && InBounds(j.items[0], 0.0, maximum) && InBounds(j.items[1], 0.0, maximum)
    && InBounds(j.items[2], 0.0, maximum)
  }

  /** The three numbers of a list over the scale. */
  function AxesOver(j: Json, scale: real): Axes<real>
    requires AxesInBounds(j, 20000.0) && scale > 0.0
  {
    Axes(j.items[0].value / scale, j.items[1].value / scale, j.items[2].value / scale)
  }

  /** A payload is accepted if and only if it has exactly the expected fields, both
      versions are 1, the quality is 0 or 1, the sequence is at least 1 and every number
      is in its range; and then the summary is these numbers in engineering units. */
  lemma AcceptedExactly(payload: Payload)
    ensures ParseVibration(payload).Parsed? <==>
      && payload.Keys == {"t", "v", "s", "m", "a", "f", "q", "r", "p", "c", "k", "d", "x", "g"}
      && payload["v"] in {Number(1.0), Boolean(true)} && payload["a"] in {Number(1.0), Boolean(true)}
      && payload["q"] in {Number(0.0), Number(1.0), Boolean(false), Boolean(true)}
      && InBounds(payload["s"], 1.0, 4294967295.0) && InBounds(payload["m"], 0.0, 4294967295.0)
      && InBounds(payload["f"], 1.0, 5000.0)
      && AxesInBounds(payload["r"], 16000.0) && AxesInBounds(payload["p"], 16000.0) && AxesInBounds(payload["c"], 1000.0)
      && AxesInBounds(payload["k"], 10000.0) && AxesInBounds(payload["d"], 2500.0) && AxesInBounds(payload["x"], 16000.0)
      && AxesInBounds(payload["g"], 20000.0)
    ensures ParseVibration(payload).Parsed? ==>
      ParseVibration(payload).value == Summary(
        payload["s"].value.Floor, payload["m"].value.Floor, payload["f"].value / 10.0,
        payload["q"] in {Number(1.0), Boolean(true)},
        AxesOver(payload["r"], 1000.0), AxesOver(payload["p"], 1000.0), AxesOver(payload["c"], 10.0),
        AxesOver(payload["k"], 10.0), AxesOver(payload["d"], 10.0), AxesOver(payload["x"], 1000.0),
        AxesOver(payload["g"], 10.0))
  {
    hide BoundedAxis;
    if payload.Keys == FIELDS {
      BoundedAxisIs(payload, "r", 16000.0, 1000.0);
      BoundedAxisIs(payload, "p", 16000.0, 1000.0);
      BoundedAxisIs(payload, "c", 1000.0, 10.0);
      BoundedAxisIs(payload, "k", 10000.0, 10.0);
      BoundedAxisIs(payload, "d", 2500.0, 10.0);
      BoundedAxisIs(payload, "x", 16000.0, 1000.0);
      BoundedAxisIs(payload, "g", 20000.0, 10.0);
    }
  }

  lemma BoundedAxisIs(payload: Payload, name: string, maximum: real, scale: real)
    requires name in payload && maximum <= 20000.0 && scale > 0.0
    ensures BoundedAxis(payload, name, maximum, scale) ==
      if AxesInBounds(payload[name], maximum) then Parsed(AxesOver(payload[name], scale)) else ParseError
  {
  }
}
