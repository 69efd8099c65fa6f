/** The printed summary is the compact JSON text of its named fields, in this order. */
module SummaryJson {
  import opened Words
  import opened VibrationSummary
  import opened TelemetryParser

  // ----- Compact JSON of a flat object -----

  datatype Value = Text(text: string) | Count(number: nat) | Triple(axes: Axes<nat>)

  datatype Member = Member(name: string, value: Value)

  function ValueText(v: Value): string {
    match v
    case Text(s) => "\"" + s + "\""
    case Count(n) => Decimal(n)
    case Triple(a) => "[" + (Decimal(a.x) + ("," + (Decimal(a.y) + ("," + (Decimal(a.z) + "]")))))
  }

  function MemberText(m: Member): string {
    "\"" + (m.name + ("\":" + ValueText(m.value)))
  }

  /** The members from here on and the closing brace. */
  function Remaining(members: seq<Member>): string {
    if members == [] then "}" else "," + (MemberText(members[0]) + Remaining(members[1..]))
  }

  function JsonText(members: seq<Member>): string
    requires members != []
  {
    "{" + (MemberText(members[0]) + Remaining(members[1..]))
  }

  function JsonOf(v: Value): Json {
    match v
    case Text(_) => JsonOther
    case Count(n) => Number(n as real)
    case Triple(a) => List([Number(a.x as real), Number(a.y as real), Number(a.z as real)])
  }

  /** The fields of the summary message. */
  function Fields(w: Wire): seq<Member> {
    [Member("t", Text("v")), Member("v", Count(1)), Member("s", Count(w.sequence)), Member("m", Count(w.uptime)),
     Member("a", Count(1)), Member("f", Count(w.f)), Member("q", Count(1)), Member("r", Triple(w.r)),
     Member("p", Triple(w.p)), Member("c", Triple(w.c)), Member("k", Triple(w.k)), Member("d", Triple(w.d)),
     Member("x", Triple(w.x)), Member("g", Triple(w.g))]
  }

  // ----- Piece by piece -----

  lemma {:induction false} RenderConcat(p: seq<Part>, q: seq<Part>, tail: string)
    ensures Render(p + q, tail) == Render(p, Render(q, tail))
    decreases |p|
  {
    if p == [] {
      assert p + q == q;
    } else {
      RenderConcat(p[1..], q, tail);
      assert (p + q)[1..] == p[1..] + q;
    }
  }

  lemma Regroup(a: string, b: string, c: string)
    ensures (a + b) + c == a + (b + c)
  {
  }

  /** One number after its name. */
  lemma CountText(name: string, n: nat, rest: string)
    ensures Render([Part(",\"" + name + "\":", n)], rest) == "," + (MemberText(Member(name, Count(n))) + rest)
  {
    hide Decimal;
    var d := Decimal(n);
    var literal := ",\"" + name + "\":";
    assert literal == "," + ("\"" + (name + "\":"));
    assert MemberText(Member(name, Count(n))) == ("\"" + (name + "\":")) + d;
    assert Render([Part(literal, n)], rest) == literal + d + rest;
    Regroup("," + ("\"" + (name + "\":")), d, rest);
    Regroup("\"" + (name + "\":"), d, rest);
    Regroup(",", "\"" + (name + "\":"), d + rest);
  }

  lemma AxisRender(literal: string, a: Axes<nat>, rest: string)
    ensures Render(AxisParts(literal, a), rest)
         == literal + (Decimal(a.x) + ("," + (Decimal(a.y) + ("," + (Decimal(a.z) + rest)))))
  {
    hide Decimal;
    var parts := AxisParts(literal, a);
    assert parts[1..] == [Part(",", a.y), Part(",", a.z)];
    RenderFirst(literal, a.x, [Part(",", a.y), Part(",", a.z)], rest);
    RenderFirst(",", a.y, [Part(",", a.z)], rest);
    RenderFirst(",", a.z, [], rest);
    assert parts == [Part(literal, a.x)] + [Part(",", a.y), Part(",", a.z)];
    assert [Part(",", a.y), Part(",", a.z)] == [Part(",", a.y)] + [Part(",", a.z)];
    assert [Part(",", a.z)] == [Part(",", a.z)] + [];
  }

  lemma RenderFirst(literal: string, n: nat, parts: seq<Part>, tail: string)
    ensures Render([Part(literal, n)] + parts, tail) == literal + (Decimal(n) + Render(parts, tail))
    ensures Render([], tail) == tail
  {
    hide Decimal;
    var all := [Part(literal, n)] + parts;
    assert all[1..] == parts;
    Regroup(literal, Decimal(n), Render(parts, tail));
  }

  lemma TripleText(a: Axes<nat>, rest: string)
    ensures ValueText(Triple(a)) + rest
         == "[" + (Decimal(a.x) + ("," + (Decimal(a.y) + ("," + (Decimal(a.z) + ("]" + rest))))))
  {
    hide Decimal;
    var x, y, z := Decimal(a.x), Decimal(a.y), Decimal(a.z);
    Regroup(z, "]", rest);
    Regroup(",", z + "]", rest);
    Regroup(y, "," + (z + "]"), rest);
    Regroup(",", y + ("," + (z + "]")), rest);
    Regroup(x, "," + (y + ("," + (z + "]"))), rest);
    Regroup("[", x + ("," + (y + ("," + (z + "]")))), rest);
  }

  /** Three numbers after their name, and the bracket that closes them. */
  lemma AxisText(name: string, a: Axes<nat>, rest: string)
    ensures Render(AxisParts(",\"" + name + "\":[", a), "]" + rest) == "," + (MemberText(Member(name, Triple(a))) + rest)
  {
    hide Decimal, ValueText;
    var literal := ",\"" + name + "\":[";
    AxisRender(literal, a, "]" + rest);
    TripleText(a, rest);
    var inner := Decimal(a.x) + ("," + (Decimal(a.y) + ("," + (Decimal(a.z) + ("]" + rest)))));
    var key := "\"" + (name + "\":");
    assert literal == ("," + key) + "[";
    Regroup("," + key, "[", inner);
    Regroup(",", key, "[" + inner);
    assert MemberText(Member(name, Triple(a))) == key + ValueText(Triple(a));
    Regroup(key, ValueText(Triple(a)), rest);
  }

  /** The bracket that the format string puts before the next name. */
  lemma NextAxisText(name: string, a: Axes<nat>, rest: string)
    ensures Render(AxisParts("],\"" + name + "\":[", a), "]" + rest) == "]" + ("," + (MemberText(Member(name, Triple(a))) + rest))
  {
    hide Decimal, ValueText, MemberText;
    AxisText(name, a, rest);
    AxisRender(",\"" + name + "\":[", a, "]" + rest);
    AxisRender("],\"" + name + "\":[", a, "]" + rest);
    var inner := Decimal(a.x) + ("," + (Decimal(a.y) + ("," + (Decimal(a.z) + ("]" + rest)))));
    assert "],\"" + name + "\":[" == "]" + (",\"" + name + "\":[");
    Regroup("]", ",\"" + name + "\":[", inner);
  }

  lemma RemainingStep(members: seq<Member>, i: nat)
    requires i < |members|
    ensures Remaining(members[i..]) == "," + (MemberText(members[i]) + Remaining(members[i + 1..]))
  {
    hide MemberText;
    assert members[i..][0] == members[i] && members[i..][1..] == members[i + 1..];
  }

  /** The fields from place 7 on are the axes. */
  ghost predicate EndsWithAxes(f: seq<Member>, w: Wire) {
    && |f| == 14 && f[7] == Member("r", Triple(w.r)) && f[8] == Member("p", Triple(w.p)) && f[9] == Member("c", Triple(w.c))
    && f[10] == Member("k", Triple(w.k)) && f[11] == Member("d", Triple(w.d)) && f[12] == Member("x", Triple(w.x))
    && f[13] == Member("g", Triple(w.g))
  }

  /** The last field of a text, given what follows it. */
  lemma LastAxis(parts: seq<Part>, f: seq<Member>, i: nat, literal: string, name: string, a: Axes<nat>, tail: string)
    requires i < |f| && f[i] == Member(name, Triple(a)) && literal == "],\"" + name + "\":["
    requires tail == "]" + Remaining(f[i + 1..])
    ensures Render(parts + AxisParts(literal, a), tail) == Render(parts, "]" + Remaining(f[i..]))
  {
    hide Render, AxisParts, Remaining;
    RenderConcat(parts, AxisParts(literal, a), tail);
    AxisMember(f, i, name, a);
  }

  /** The seven axis fields, from the last back to the first. */
  lemma AxesText(w: Wire, f: seq<Member>)
    requires EndsWithAxes(f, w)
    ensures Render(AxisParts(",\"r\":[", w.r) + AxisParts("],\"p\":[", w.p) + AxisParts("],\"c\":[", w.c)
                   + AxisParts("],\"k\":[", w.k) + AxisParts("],\"d\":[", w.d) + AxisParts("],\"x\":[", w.x)
                   + AxisParts("],\"g\":[", w.g), "]}")
         == Remaining(f[7..])
  {
    hide MemberText, Render, AxisParts, Remaining;
    var r, p, c := AxisParts(",\"r\":[", w.r), AxisParts("],\"p\":[", w.p), AxisParts("],\"c\":[", w.c);
    var k, d, x := AxisParts("],\"k\":[", w.k), AxisParts("],\"d\":[", w.d), AxisParts("],\"x\":[", w.x);
    Closing(f);
    LastAxis(r + p + c + k + d + x, f, 13, "],\"g\":[", "g", w.g, "]}");
    LastAxis(r + p + c + k + d, f, 12, "],\"x\":[", "x", w.x, "]" + Remaining(f[13..]));
    LastAxis(r + p + c + k, f, 11, "],\"d\":[", "d", w.d, "]" + Remaining(f[12..]));
    LastAxis(r + p + c, f, 10, "],\"k\":[", "k", w.k, "]" + Remaining(f[11..]));
    LastAxis(r + p, f, 9, "],\"c\":[", "c", w.c, "]" + Remaining(f[10..]));
    LastAxis(r, f, 8, "],\"p\":[", "p", w.p, "]" + Remaining(f[9..]));
    AxisText("r", w.r, Remaining(f[8..]));
    assert ",\"" + "r" + "\":[" == ",\"r\":[";
    RemainingStep(f, 7);
  }

  lemma Closing(f: seq<Member>)
    requires |f| == 14
    ensures "]" + Remaining(f[14..]) == "]}"
  {
  }

  lemma AxisMember(f: seq<Member>, i: nat, name: string, a: Axes<nat>)
    requires i < |f| && f[i] == Member(name, Triple(a))
    ensures Render(AxisParts("],\"" + name + "\":[", a), "]" + Remaining(f[i + 1..])) == "]" + Remaining(f[i..])
  {
    hide MemberText, Render, AxisParts;
    NextAxisText(name, a, Remaining(f[i + 1..]));
    RemainingStep(f, i);
  }

  lemma CountMember(f: seq<Member>, i: nat, name: string, n: nat)
    requires i < |f| && f[i] == Member(name, Count(n))
    ensures Render([Part(",\"" + name + "\":", n)], Remaining(f[i + 1..])) == Remaining(f[i..])
  {
    hide MemberText, Render;
    CountText(name, n, Remaining(f[i + 1..]));
    RemainingStep(f, i);
  }

  lemma LastCount(parts: seq<Part>, f: seq<Member>, i: nat, literal: string, name: string, n: nat, tail: string)
    requires i < |f| && f[i] == Member(name, Count(n)) && literal == ",\"" + name + "\":"
    requires tail == Remaining(f[i + 1..])
    ensures Render(parts + [Part(literal, n)], tail) == Render(parts, Remaining(f[i..]))
  {
    hide Render, Remaining;
    RenderConcat(parts, [Part(literal, n)], tail);
    CountMember(f, i, name, n);
  }

  /** The fields up to place 6 are the type and the numbers. */
  ghost predicate BeginsWithCounts(f: seq<Member>, w: Wire) {
    && |f| == 14 && f[0] == Member("t", Text("v")) && f[1] == Member("v", Count(1)) && f[2] == Member("s", Count(w.sequence))
    && f[3] == Member("m", Count(w.uptime)) && f[4] == Member("a", Count(1)) && f[5] == Member("f", Count(w.f))
    && f[6] == Member("q", Count(1))
  }

  function Head(w: Wire): seq<Part> {
    [Part("{\"t\":\"v\",\"v\":", 1)] + [Part(",\"s\":", w.sequence)] + [Part(",\"m\":", w.uptime)] + [Part(",\"a\":", 1)]
    + [Part(",\"f\":", w.f)] + [Part(",\"q\":", 1)]
  }

  /** The fields before the axes, from the last back to the first. */
  lemma HeadText(w: Wire, f: seq<Member>)
    requires BeginsWithCounts(f, w)
    ensures Render(Head(w), Remaining(f[7..])) == JsonText(f)
  {
    hide Render, MemberText, Remaining;
    var v, s, m := [Part("{\"t\":\"v\",\"v\":", 1)], [Part(",\"s\":", w.sequence)], [Part(",\"m\":", w.uptime)];
    var a, g := [Part(",\"a\":", 1)], [Part(",\"f\":", w.f)];
    LastCount(v + s + m + a + g, f, 6, ",\"q\":", "q", 1, Remaining(f[7..]));
    LastCount(v + s + m + a, f, 5, ",\"f\":", "f", w.f, Remaining(f[6..]));
    LastCount(v + s + m, f, 4, ",\"a\":", "a", 1, Remaining(f[5..]));
    LastCount(v + s, f, 3, ",\"m\":", "m", w.uptime, Remaining(f[4..]));
    LastCount(v, f, 2, ",\"s\":", "s", w.sequence, Remaining(f[3..]));
    FirstText(Remaining(f[2..]));
    RemainingStep(f, 1);
  }

  /** The opening, with the message type in front of the first number. */
  lemma FirstText(rest: string)
    ensures Render([Part("{\"t\":\"v\",\"v\":", 1)], rest)
         == "{" + (MemberText(Member("t", Text("v"))) + ("," + (MemberText(Member("v", Count(1))) + rest)))
  {
    hide Decimal;
    RenderFirst("{\"t\":\"v\",\"v\":", 1, [], rest);
    assert [Part("{\"t\":\"v\",\"v\":", 1)] == [Part("{\"t\":\"v\",\"v\":", 1)] + [];
    var t := MemberText(Member("t", Text("v")));
    assert t == "\"t\":\"v\"";
    assert "{\"t\":\"v\",\"v\":" == "{" + (t + ("," + "\"v\":"));
    assert MemberText(Member("v", Count(1))) == "\"v\":" + Decimal(1);
    var d := Decimal(1) + rest;
    Regroup("\"v\":", Decimal(1), rest);
    Regroup(",", "\"v\":", d);
    Regroup(t, "," + "\"v\":", d);
    Regroup("{", t + ("," + "\"v\":"), d);
  }

  /** The printed message is the JSON text of its fields, and the object that the
      gateway parses is the one this text denotes: every name with its own value. */
  lemma PrintIsJson(w: Wire)
    ensures Print(w) == JsonText(Fields(w))
    ensures |Scan(Print(w))| == 27
    ensures PayloadOf(Scan(Print(w))) == map[
      "t" := JsonOf(Text("v")), "v" := JsonOf(Count(1)), "s" := JsonOf(Count(w.sequence)), "m" := JsonOf(Count(w.uptime)),
      "a" := JsonOf(Count(1)), "f" := JsonOf(Count(w.f)), "q" := JsonOf(Count(1)), "r" := JsonOf(Triple(w.r)),
      "p" := JsonOf(Triple(w.p)), "c" := JsonOf(Triple(w.c)), "k" := JsonOf(Triple(w.k)), "d" := JsonOf(Triple(w.d)),
      "x" := JsonOf(Triple(w.x)), "g" := JsonOf(Triple(w.g))]
  {
    PrintText(w);
    PayloadFields(w);
  }

  lemma PrintText(w: Wire)
    ensures Print(w) == JsonText(Fields(w))
  {
    FieldsInOrder(w);
    hide Render, JsonText, Remaining, Fields, AxisParts, BeginsWithCounts;
    AxesText(w, Fields(w));
    HeadText(w, Fields(w));
    var axes := AxisParts(",\"r\":[", w.r) + AxisParts("],\"p\":[", w.p) + AxisParts("],\"c\":[", w.c)
      + AxisParts("],\"k\":[", w.k) + AxisParts("],\"d\":[", w.d) + AxisParts("],\"x\":[", w.x) + AxisParts("],\"g\":[", w.g);
    RenderConcat(Head(w), axes, "]}");
    assert Parts(w) == Head(w) + axes;
  }

  lemma FieldsInOrder(w: Wire)
    ensures BeginsWithCounts(Fields(w), w) && EndsWithAxes(Fields(w), w)
  {
  }

  lemma PayloadFields(w: Wire)
    ensures |Scan(Print(w))| == 27
    ensures PayloadOf(Scan(Print(w))) == map[
      "t" := JsonOf(Text("v")), "v" := JsonOf(Count(1)), "s" := JsonOf(Count(w.sequence)), "m" := JsonOf(Count(w.uptime)),
      "a" := JsonOf(Count(1)), "f" := JsonOf(Count(w.f)), "q" := JsonOf(Count(1)), "r" := JsonOf(Triple(w.r)),
      "p" := JsonOf(Triple(w.p)), "c" := JsonOf(Triple(w.c)), "k" := JsonOf(Triple(w.k)), "d" := JsonOf(Triple(w.d)),
      "x" := JsonOf(Triple(w.x)), "g" := JsonOf(Triple(w.g))]
  {
    hide Print, Scan, Parts, Numbers;
    PrintReadsBack(w);
    NumbersOfParts(w);
  }
}
