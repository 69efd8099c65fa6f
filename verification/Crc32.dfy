/** The CRC-32 of section 8 of RFC 1952, as the record envelope computes it. */
module Crc32 {
  import opened Words
  import opened Bits

  const POLYNOMIAL: u32 := 0xEDB8_8320
  const ALL_ONES: u32 := 0xFFFF_FFFF

  // ----- The bit-serial register -----

  function BitStep(c: u32): u32 {
    Xor32(c / 2, if c % 2 == 1 then POLYNOMIAL else 0)
  }

  function BitSteps(c: u32, n: nat): u32
    decreases n
  {
    if n == 0 then c else BitSteps(BitStep(c), n - 1)
  }

  function ByteStep(c: u32, b: byte): u32 {
    BitSteps(Xor32(c, b), 8)
  }

  function Register(c: u32, data: seq<byte>): u32
    decreases |data|
  {
    if data == [] then c else Register(ByteStep(c, data[0]), data[1..])
  }

  function Checksum(data: seq<byte>): u32 {
    Xor32(Register(ALL_ONES, data), ALL_ONES)
  }

  /** The firmware's double loop computes the checksum. */
  method PersistentCrc32(data: seq<byte>) returns (crc: u32)
    ensures crc == Checksum(data)
  {
    crc := ALL_ONES;
    for i := 0 to |data|
      invariant Register(crc, data[i..]) == Register(ALL_ONES, data)
    {
      assert data[i..][1..] == data[i + 1..];
      ghost var before := crc;
      crc := Xor32(crc, data[i]);
      for b := 0 to 8
        invariant BitSteps(crc, 8 - b) == ByteStep(before, data[i])
      {
        crc := Xor32(crc / 2, if crc % 2 == 1 then POLYNOMIAL else 0);
      }
    }
    crc := Xor32(crc, ALL_ONES);
  }

  // ----- The bit step is a bijection -----

  lemma BitStepInjective(x: u32, y: u32)
    requires BitStep(x) == BitStep(y)
    ensures x == y
  {
    Pow2Values();
    XorZero(x / 2);
    XorZero(y / 2);
    if x % 2 == y % 2 {
      XorCancel(x / 2, y / 2, if x % 2 == 1 then POLYNOMIAL else 0);
    } else {
      XorTopBit(if x % 2 == 1 then x / 2 else y / 2, POLYNOMIAL, 31);
    }
  }

  lemma {:induction false} BitStepsInjective(x: u32, y: u32, n: nat)
    requires BitSteps(x, n) == BitSteps(y, n)
    ensures x == y
    decreases n
  {
    if n > 0 {
      BitStepsInjective(BitStep(x), BitStep(y), n - 1);
      BitStepInjective(x, y);
    }
  }

  lemma {:induction false} BitStepsCompose(c: u32, m: nat, n: nat)
    ensures BitSteps(BitSteps(c, m), n) == BitSteps(c, m + n)
    decreases m
  {
    if m > 0 {
      BitStepsCompose(BitStep(c), m - 1, n);
    }
  }

  lemma XorEven(x: nat, h: nat)
    ensures Xor(x, 2 * h) / 2 == Xor(x / 2, h) && Xor(x, 2 * h) % 2 == x % 2
  {
    XorDouble(x / 2, x % 2, h, 0);
    assert x == 2 * (x / 2) + x % 2;
  }

  /** The step is linear over exclusive or with an even word. */
  lemma BitStepEven(x: u32, h: nat)
    requires 2 * h < WORD
    ensures BitStep(Xor32(x, 2 * h)) == Xor32(BitStep(x), h)
  {
    var p := if x % 2 == 1 then POLYNOMIAL else 0;
    XorEven(x, h);
    assert BitStep(Xor32(x, 2 * h)) == Xor(Xor(x / 2, h), p);
    XorAssoc(x / 2, h, p);
    XorComm(h, p);
    XorAssoc(x / 2, p, h);
  }

  /** A word whose low n bits are zero is only shifted by n steps, whatever it
      is combined with. */
  lemma {:induction false} BitStepsShift(x: u32, y: u32, n: nat, z: nat)
    requires y == z * Pow2(n)
    ensures z < WORD && BitSteps(Xor32(x, y), n) == Xor32(BitSteps(x, n), z)
    decreases n
  {
    hide BitStep, Pow2, Xor32;
    if n == 0 {
      ShiftByNone(z);
    } else {
      var h := ShiftByOne(z, n);
      BitStepEven(x, h);
      BitStepsShift(BitStep(x), h, n - 1, z);
    }
  }

  lemma ShiftByNone(z: nat)
    ensures z * Pow2(0) == z
  {
  }

  lemma ShiftByOne(z: nat, n: nat) returns (h: nat)
    requires n > 0
    ensures h == z * Pow2(n - 1) && z * Pow2(n) == 2 * h
  {
    h := z * Pow2(n - 1);
    MulDouble(z, Pow2(n - 1));
  }

  // ----- Agreement with the table form of RFC 1952 -----

  /** Entry n of the table that section 8 of RFC 1952 builds. */
  function TableEntry(n: byte): u32 {
    BitSteps(n, 8)
  }

  /** A byte combined into a word changes its low eight bits only. */
  lemma XorLow(q: nat, r: nat, b: nat, n: nat)
    requires r < Pow2(n) && b < Pow2(n)
    ensures Xor(q * Pow2(n) + r, b) == q * Pow2(n) + Xor(r, b)
  {
    hide Xor, Pow2;
    XorSplit(q, r, n);
    XorBound(r, b, n);
    XorSplit(q, Xor(r, b), n);
    XorPast(q * Pow2(n), r, b);
  }

  lemma XorPast(h: nat, r: nat, b: nat)
    requires Xor(r, h) == h + r && Xor(Xor(r, b), h) == h + Xor(r, b)
    ensures Xor(h + r, b) == h + Xor(r, b)
  {
    hide Xor;
    XorAssoc(r, h, b);
    XorComm(h, b);
    XorAssoc(r, b, h);
  }

  lemma XorSplit8(q: nat, l: byte)
    ensures Xor(l, q * 0x100) == q * 0x100 + l
  {
    Pow2Values();
    XorSplit(q, l, 8);
  }

  lemma XorLow8(q: nat, r: byte, b: byte) returns (l: byte)
    ensures l == Xor(r, b) && Xor(q * 0x100 + r, b) == q * 0x100 + l
  {
    Pow2Values();
    XorLow(q, r, b, 8);
    XorBound(r, b, 8);
    l := Xor(r, b);
  }

  lemma BitStepsShift8(x: u32, w: nat)
    requires w * 0x100 < WORD
    ensures BitSteps(Xor32(x, w * 0x100), 8) == Xor32(BitSteps(x, 8), w)
  {
    Pow2Values();
    BitStepsShift(x, w * 0x100, 8, w);
  }

  lemma LowByteChange(c: u32, b: byte) returns (q: nat, l: byte)
    ensures q == c / 0x100 && l == Xor32(c, b) % 0x100 && Xor32(c, b) == q * 0x100 + l
  {
    hide Xor;
    q := c / 0x100;
    l := XorLow8(q, c % 0x100, b);
    LowByte(q, l);
  }

  lemma LowByte(q: nat, l: byte)
    ensures (q * 0x100 + l) % 0x100 == l
  {
  }

  lemma ShiftHigh(q: nat, l: byte)
    requires q * 0x100 + l < WORD
    ensures BitSteps(q * 0x100 + l, 8) == Xor32(BitSteps(l, 8), q)
  {
    XorSplit8(q, l);
    BitStepsShift8(l, q);
  }

  /** The bit-serial step is the table-driven update of RFC 1952. */
  lemma ByteStepIsTableUpdate(c: u32, b: byte)
    ensures ByteStep(c, b) == Xor32(TableEntry(Xor32(c, b) % 0x100), c / 0x100)
  {
    hide Xor32, BitSteps;
    var q, l := LowByteChange(c, b);
    ShiftHigh(q, l);
  }

  // ----- Error detection -----

  lemma {:induction false} RegisterAppend(c: u32, s: seq<byte>, t: seq<byte>)
    ensures Register(c, s + t) == Register(Register(c, s), t)
    decreases |s|
  {
    if s == [] {
      assert s + t == t;
    } else {
      assert (s + t)[1..] == s[1..] + t;
      RegisterAppend(ByteStep(c, s[0]), s[1..], t);
    }
  }

  /** Different registers stay different over a common suffix. */
  lemma {:induction false} RegisterInjective(c: u32, d: u32, data: seq<byte>)
    requires Register(c, data) == Register(d, data)
    ensures c == d
    decreases |data|
  {
    if data != [] {
      RegisterInjective(ByteStep(c, data[0]), ByteStep(d, data[0]), data[1..]);
      BitStepsInjective(Xor32(c, data[0]), Xor32(d, data[0]), 8);
      XorCancel(c, d, data[0]);
    }
  }

  /** The little-endian number of a run of bytes. */
  function RunWord(u: seq<byte>): nat {
    if u == [] then 0 else RunWord(u[1..]) * 0x100 + u[0]
  }

  lemma {:induction false} RunWordInjective(u: seq<byte>, v: seq<byte>)
    requires |u| == |v| && RunWord(u) == RunWord(v)
    ensures u == v
    decreases |u|
  {
    if u != [] {
      RunWordInjective(u[1..], v[1..]);
      assert u == [u[0]] + u[1..] && v == [v[0]] + v[1..];
    }
  }

  function RunLimit(n: nat): nat {
    if n == 0 then 1 else 0x100 * RunLimit(n - 1)
  }

  lemma {:induction false} RunWordBound(u: seq<byte>)
    ensures RunWord(u) < RunLimit(|u|)
    decreases |u|
  {
    if u != [] {
      RunWordBound(u[1..]);
    }
  }

  lemma RunWordFits(u: seq<byte>)
    requires |u| <= 4
    ensures RunWord(u) < WORD
  {
    RunWordBound(u);
    assert RunLimit(1) == 0x100 && RunLimit(2) == 0x1_0000 && RunLimit(3) == 0x100_0000 && RunLimit(4) == WORD;
  }

  /** One byte consumed, with a word still to come. */
  lemma ByteOfRun(c: u32, b: byte, w: nat, n: nat)
    requires w * 0x100 + b < WORD
    ensures BitSteps(Xor32(ByteStep(c, b), w), n) == BitSteps(Xor32(c, w * 0x100 + b), 8 + n)
  {
    BitStepsCompose(Xor32(c, w * 0x100 + b), 8, n);
    BitStepsShift8(Xor32(c, b), w);
    XorAssoc(c, b, w * 0x100);
    XorSplit8(w, b);
  }

  /** A run of at most four bytes acts on the register as one word. */
  lemma {:induction false} RegisterOfRun(c: u32, u: seq<byte>)
    requires |u| <= 4
    ensures RunWord(u) < WORD
    ensures Register(c, u) == BitSteps(Xor32(c, RunWord(u)), 8 * |u|)
    decreases |u|
  {
    hide ByteStep, Xor;
    RunWordFits(u);
    if u == [] {
      XorZero(c);
    } else {
      var w := RunWord(u[1..]);
      RunWordFits(u[1..]);
      RegisterOfRun(ByteStep(c, u[0]), u[1..]);
      ByteOfRun(c, u[0], w, 8 * (|u| - 1));
      assert 8 + 8 * (|u| - 1) == 8 * |u|;
    }
  }

  /** Replacing a run of at most four consecutive bytes always changes the checksum. */
  lemma BurstDetected(prefix: seq<byte>, u: seq<byte>, v: seq<byte>, suffix: seq<byte>)
    requires |u| == |v| <= 4 && u != v
    ensures Checksum(prefix + u + suffix) != Checksum(prefix + v + suffix)
  {
    var c := Register(ALL_ONES, prefix);
    RegisterAppend(ALL_ONES, prefix + u, suffix);
    RegisterAppend(ALL_ONES, prefix + v, suffix);
    RegisterAppend(ALL_ONES, prefix, u);
    RegisterAppend(ALL_ONES, prefix, v);
    if Checksum(prefix + u + suffix) == Checksum(prefix + v + suffix) {
      XorCancel(Register(ALL_ONES, prefix + u + suffix), Register(ALL_ONES, prefix + v + suffix), ALL_ONES);
      RegisterInjective(Register(c, u), Register(c, v), suffix);
      RegisterOfRun(c, u);
      RegisterOfRun(c, v);
      BitStepsInjective(Xor32(c, RunWord(u)), Xor32(c, RunWord(v)), 8 * |u|);
      XorComm(c, RunWord(u));
      XorComm(c, RunWord(v));
      XorCancel(RunWord(u), RunWord(v), c);
      RunWordInjective(u, v);
    }
  }

  // ----- The polynomial -----

  /** The exponents of the generator below x^32. */
  const EXPONENTS: set<nat> := {0, 1, 2, 4, 5, 7, 8, 10, 11, 12, 16, 22, 23, 26}

  /** The register as a polynomial: its top bit is the constant term. */
  function Coefficient(c: u32, e: nat): (r: nat)
    requires e < 32
    ensures r <= 1
  {
    Bit(c, 31 - e)
  }

  lemma ByteBits20(j: nat)
    requires j < 8
    ensures Bit(0x20, j) == 1 <==> j == 5
  {
    assert Bit(0x20, 0) == 0 && Bit(0x20, 1) == 0 && Bit(0x20, 2) == 0 && Bit(0x20, 3) == 0;
    assert Bit(0x20, 4) == 0 && Bit(0x20, 5) == 1 && Bit(0x20, 6) == 0 && Bit(0x20, 7) == 0;
  }

  lemma ByteBits83(j: nat)
    requires j < 8
    ensures Bit(0x83, j) == 1 <==> j in {0, 1, 7}
  {
    assert Bit(0x83, 0) == 1 && Bit(0x83, 1) == 1 && Bit(0x83, 2) == 0 && Bit(0x83, 3) == 0;
    assert Bit(0x83, 4) == 0 && Bit(0x83, 5) == 0 && Bit(0x83, 6) == 0 && Bit(0x83, 7) == 1;
  }

  lemma ByteBitsB8(j: nat)
    requires j < 8
    ensures Bit(0xB8, j) == 1 <==> j in {3, 4, 5, 7}
  {
    assert Bit(0xB8, 0) == 0 && Bit(0xB8, 1) == 0 && Bit(0xB8, 2) == 0 && Bit(0xB8, 3) == 1;
    assert Bit(0xB8, 4) == 1 && Bit(0xB8, 5) == 1 && Bit(0xB8, 6) == 0 && Bit(0xB8, 7) == 1;
  }

  lemma ByteBitsED(j: nat)
    requires j < 8
    ensures Bit(0xED, j) == 1 <==> j in {0, 2, 3, 5, 6, 7}
  {
    assert Bit(0xED, 0) == 1 && Bit(0xED, 1) == 0 && Bit(0xED, 2) == 1 && Bit(0xED, 3) == 1;
    assert Bit(0xED, 4) == 0 && Bit(0xED, 5) == 1 && Bit(0xED, 6) == 1 && Bit(0xED, 7) == 1;
  }

  /** The feedback word is the generator of section 8 of RFC 1952. */
  lemma PolynomialCoefficient(e: nat)
    requires e < 32
    ensures Coefficient(POLYNOMIAL, e) == 1 <==> e in EXPONENTS
  {
    hide Bit;
    var n := 31 - e;
    if n < 8 {
      PolynomialByte(n, 0, n);
      ByteBits20(n);
    } else if n < 16 {
      PolynomialByte(n, 1, n - 8);
      ByteBits83(n - 8);
    } else if n < 24 {
      PolynomialByte(n, 2, n - 16);
      ByteBitsB8(n - 16);
    } else {
      PolynomialByte(n, 3, n - 24);
      ByteBitsED(n - 24);
    }
  }

  lemma PolynomialByte(n: nat, place: nat, j: nat)
    requires place < 4 && j < 8 && n == 8 * place + j
    ensures Bit(POLYNOMIAL, n) == Bit([0x20, 0x83, 0xB8, 0xED][place], j)
  {
    hide Bit, Pow2;
    Pow2Values();
    Pow2Add(8, 8);
    Pow2Add(0, 8);
    BitOfByte(POLYNOMIAL, 8 * place, j, [0x20, 0x83, 0xB8, 0xED][place]);
  }

  /** One bit step multiplies the register by x modulo the generator: every
      coefficient moves up, and the one of x^31 comes back at the exponents. */
  lemma StepMultipliesByX(c: u32, e: nat)
    requires e < 32
    ensures Coefficient(BitStep(c), e) ==
      ((if e > 0 then Coefficient(c, e - 1) else 0) + (if e in EXPONENTS then Coefficient(c, 31) else 0)) % 2
  {
    var j := 31 - e;
    XorBit(c / 2, if c % 2 == 1 then POLYNOMIAL else 0, j);
    assert Bit(c / 2, j) == Bit(c, j + 1);
    ZeroBit(j);
    PolynomialCoefficient(e);
    if e == 0 {
      Pow2Values();
      BitTop(c);
    }
  }

  /** A word has no bit 32. */
  lemma BitTop(c: u32)
    ensures Bit(c, 32) == 0
  {
    hide Bit;
    Pow2Values();
    JoinBit(0, c, 32, 32);
    ZeroBit(0);
  }

  lemma OnesBit(n: nat, j: nat)
    requires j < n
    ensures Bit(Pow2(n) - 1, j) == 1
  {
    hide Bit, Pow2;
    ComplementBit(0, n, j);
    ZeroBit(j);
  }

  /** The register starts with all ones, and the checksum is its complement. */
  lemma ChecksumInverts(data: seq<byte>)
    ensures Checksum(data) == 0xFFFF_FFFF - Register(0xFFFF_FFFF, data)
  {
    hide Bit, Xor, Register;
    var r := Register(ALL_ONES, data);
    Pow2Values();
    forall j | 0 <= j < 32
      ensures Bit(Checksum(data), j) == Bit(0xFFFF_FFFF - r, j)
    {
      XorBit(r, ALL_ONES, j);
      OnesBit(32, j);
      ComplementBit(r, 32, j);
    }
    BitsDetermine(Checksum(data), 0xFFFF_FFFF - r, 32);
  }
}
