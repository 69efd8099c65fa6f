/** What the functions and constants of SHA-256 are, bit by bit and by their origin:
    sections 4.1.2, 4.2.2 and 5.3.3 of FIPS 180-4. */
module Sha256Laws {
  import opened Words
  import opened Bits
  import opened Sha256

  // ----- Section 4.1.2 -----

  lemma RotateBit(x: u32, n: nat, j: nat)
    requires 0 < n < 32 && j < 32
    ensures Bit(RotateRight(x, n), j) == Bit(x, (j + n) % 32)
  {
    hide Bit, Pow2;
    Pow2Values();
    Pow2Add(n, 32 - n);
    Recompose(x, Pow2(n));
    HighPart(x, Pow2(n), Pow2(32 - n));
    JoinBit(x % Pow2(n), x / Pow2(n), 32 - n, j);
    if j < 32 - n {
      ShiftBit(x, n, j, x / Pow2(n));
    } else {
      LowBit(x, n, j - (32 - n));
    }
  }

  lemma HighPart(x: u32, p: nat, q: nat)
    requires p >= 1 && p * q == WORD
    ensures x / p < q
  {
    var d := x / p;
    assert p * d <= x;
    if d >= q {
      MulMonotone(q, d, p);
    }
  }

  /** Ch chooses: where x has a 1 the bit of y, elsewhere the bit of z. */
  lemma ChoiceBit(x: u32, y: u32, z: u32, j: nat)
    requires j < 32
    ensures Bit(Ch(x, y, z), j) == if Bit(x, j) == 1 then Bit(y, j) else Bit(z, j)
  {
    hide Bit, Xor, And;
    Pow2Values();
    ComplementBit(x, 32, j);
    AndBit(x, y, j);
    AndBit(Not32(x), z, j);
    XorBit(And32(x, y), And32(Not32(x), z), j);
  }

  lemma Xor3Bit(x: u32, y: u32, z: u32, j: nat)
    ensures Bit(Xor3(x, y, z), j) == (Bit(x, j) + Bit(y, j) + Bit(z, j)) % 2
  {
    hide Bit, Xor;
    XorBit(x, y, j);
    XorBit(Xor32(x, y), z, j);
  }

  /** Maj is the bit that at least two of the three words have. */
  lemma MajorityBit(x: u32, y: u32, z: u32, j: nat)
    ensures Bit(Maj(x, y, z), j) == if Bit(x, j) + Bit(y, j) + Bit(z, j) >= 2 then 1 else 0
  {
    hide Bit, And, Xor3;
    AndBit(x, y, j);
    AndBit(x, z, j);
    AndBit(y, z, j);
    Xor3Bit(And32(x, y), And32(x, z), And32(y, z), j);
  }

  lemma BigSigmaBits(x: u32, j: nat)
    requires j < 32
    ensures Bit(BigSigma0(x), j) == (Bit(x, (j + 2) % 32) + Bit(x, (j + 13) % 32) + Bit(x, (j + 22) % 32)) % 2
    ensures Bit(BigSigma1(x), j) == (Bit(x, (j + 6) % 32) + Bit(x, (j + 11) % 32) + Bit(x, (j + 25) % 32)) % 2
  {
    hide Bit, RotateRight, Xor3;
    RotateBit(x, 2, j);
    RotateBit(x, 13, j);
    RotateBit(x, 22, j);
    Xor3Bit(RotateRight(x, 2), RotateRight(x, 13), RotateRight(x, 22), j);
    RotateBit(x, 6, j);
    RotateBit(x, 11, j);
    RotateBit(x, 25, j);
    Xor3Bit(RotateRight(x, 6), RotateRight(x, 11), RotateRight(x, 25), j);
  }

  /** A shift brings in zeros at the top. */
  lemma ShiftedBit(x: u32, n: nat, j: nat)
    requires j < 32
    ensures Bit(ShiftRight(x, n), j) == if j + n < 32 then Bit(x, j + n) else 0
  {
    hide Bit;
    ShiftBit(x, n, j, ShiftRight(x, n));
    if j + n >= 32 {
      Pow2Values();
      JoinBit(0, x, 32, j + n);
      ZeroBit(j + n - 32);
    }
  }

  lemma SmallSigmaBits(x: u32, j: nat)
    requires j < 32
    ensures Bit(SmallSigma0(x), j) ==
      (Bit(x, (j + 7) % 32) + Bit(x, (j + 18) % 32) + if j + 3 < 32 then Bit(x, j + 3) else 0) % 2
    ensures Bit(SmallSigma1(x), j) ==
      (Bit(x, (j + 17) % 32) + Bit(x, (j + 19) % 32) + if j + 10 < 32 then Bit(x, j + 10) else 0) % 2
  {
    hide Bit, RotateRight, ShiftRight, Xor3;
    RotateBit(x, 7, j);
    RotateBit(x, 18, j);
    ShiftedBit(x, 3, j);
    Xor3Bit(RotateRight(x, 7), RotateRight(x, 18), ShiftRight(x, 3), j);
    RotateBit(x, 17, j);
    RotateBit(x, 19, j);
    ShiftedBit(x, 10, j);
    Xor3Bit(RotateRight(x, 17), RotateRight(x, 19), ShiftRight(x, 10), j);
  }

  // ----- Sections 4.2.2 and 5.3.3 -----

  /** The first 64 primes. */
  const PRIMES: seq<seq<nat>> := [
    [2, 3, 5, 7, 11, 13, 17, 19],
    [23, 29, 31, 37, 41, 43, 47, 53],
    [59, 61, 67, 71, 73, 79, 83, 89],
    [97, 101, 103, 107, 109, 113, 127, 131],
    [137, 139, 149, 151, 157, 163, 167, 173],
    [179, 181, 191, 193, 197, 199, 211, 223],
    [227, 229, 233, 239, 241, 251, 257, 263],
    [269, 271, 277, 281, 283, 293, 307, 311]]

  function Prime(t: nat): nat
    requires t < 64
  {
    PRIMES[t / 8][t % 8]
  }

  /** k is the first 32 bits of the fractional part of the cube root of p. */
  ghost predicate CubeRootFraction(p: nat, k: u32) {
    exists m: nat :: m % WORD == k && IsCubeRoot(m, p)
  }

  /** m is the cube root of p, scaled by 2^32 and rounded down. */
  ghost predicate IsCubeRoot(m: nat, p: nat) {
    m * m * m <= p * 0x1_0000_0000_0000_0000_0000_0000 < (m + 1) * (m + 1) * (m + 1)
  }

  /** k is the first 32 bits of the fractional part of the square root of p. */
  ghost predicate SquareRootFraction(p: nat, k: u32) {
    exists m: nat :: m % WORD == k && IsSquareRoot(m, p)
  }

  ghost predicate IsSquareRoot(m: nat, p: nat) {
    m * m <= p * 0x1_0000_0000_0000_0000 < (m + 1) * (m + 1)
  }

  lemma CubeRootAt(m: nat, p: nat)
    requires m * m * m <= p * 0x1_0000_0000_0000_0000_0000_0000 < (m + 1) * (m + 1) * (m + 1)
    ensures CubeRootFraction(p, m % WORD)
  {
    assert IsCubeRoot(m, p);
  }

  lemma SquareRootAt(m: nat, p: nat)
    requires m * m <= p * 0x1_0000_0000_0000_0000 < (m + 1) * (m + 1)
    ensures SquareRootFraction(p, m % WORD)
  {
    assert IsSquareRoot(m, p);
  }

  /** Row r of the constants comes from row r of the primes. */
  ghost predicate RowOrigin(r: nat)
    requires r < 8
  {
    forall i :: 0 <= i < 8 ==> CubeRootFraction(PRIMES[r][i], ROUND_CONSTANTS[r][i])
  }

  lemma RowOrigin0()
    ensures RowOrigin(0)
  {
    hide CubeRootFraction;
    CubeRootAt(0x1_428a2f98, 2);
    CubeRootAt(0x1_71374491, 3);
    CubeRootAt(0x1_b5c0fbcf, 5);
    CubeRootAt(0x1_e9b5dba5, 7);
    CubeRootAt(0x2_3956c25b, 11);
    CubeRootAt(0x2_59f111f1, 13);
    CubeRootAt(0x2_923f82a4, 17);
    CubeRootAt(0x2_ab1c5ed5, 19);
  }

  lemma RowOrigin1()
    ensures RowOrigin(1)
  {
    hide CubeRootFraction;
    CubeRootAt(0x2_d807aa98, 23);
    CubeRootAt(0x3_12835b01, 29);
    CubeRootAt(0x3_243185be, 31);
    CubeRootAt(0x3_550c7dc3, 37);
    CubeRootAt(0x3_72be5d74, 41);
    CubeRootAt(0x3_80deb1fe, 43);
    CubeRootAt(0x3_9bdc06a7, 47);
    CubeRootAt(0x3_c19bf174, 53);
  }

  lemma RowOrigin2()
    ensures RowOrigin(2)
  {
    hide CubeRootFraction;
    CubeRootAt(0x3_e49b69c1, 59);
    CubeRootAt(0x3_efbe4786, 61);
    CubeRootAt(0x4_0fc19dc6, 67);
    CubeRootAt(0x4_240ca1cc, 71);
    CubeRootAt(0x4_2de92c6f, 73);
    CubeRootAt(0x4_4a7484aa, 79);
    CubeRootAt(0x4_5cb0a9dc, 83);
    CubeRootAt(0x4_76f988da, 89);
  }

  lemma RowOrigin3()
    ensures RowOrigin(3)
  {
    hide CubeRootFraction;
    CubeRootAt(0x4_983e5152, 97);
    CubeRootAt(0x4_a831c66d, 101);
    CubeRootAt(0x4_b00327c8, 103);
    CubeRootAt(0x4_bf597fc7, 107);
    CubeRootAt(0x4_c6e00bf3, 109);
    CubeRootAt(0x4_d5a79147, 113);
    CubeRootAt(0x5_06ca6351, 127);
    CubeRootAt(0x5_14292967, 131);
  }

  lemma RowOrigin4()
    ensures RowOrigin(4)
  {
    hide CubeRootFraction;
    CubeRootAt(0x5_27b70a85, 137);
    CubeRootAt(0x5_2e1b2138, 139);
    CubeRootAt(0x5_4d2c6dfc, 149);
    CubeRootAt(0x5_53380d13, 151);
    CubeRootAt(0x5_650a7354, 157);
    CubeRootAt(0x5_766a0abb, 163);
    CubeRootAt(0x5_81c2c92e, 167);
    CubeRootAt(0x5_92722c85, 173);
  }

  lemma RowOrigin5()
    ensures RowOrigin(5)
  {
    hide CubeRootFraction;
    CubeRootAt(0x5_a2bfe8a1, 179);
    CubeRootAt(0x5_a81a664b, 181);
    CubeRootAt(0x5_c24b8b70, 191);
    CubeRootAt(0x5_c76c51a3, 193);
    CubeRootAt(0x5_d192e819, 197);
    CubeRootAt(0x5_d6990624, 199);
    CubeRootAt(0x5_f40e3585, 211);
    CubeRootAt(0x6_106aa070, 223);
  }

  lemma RowOrigin6()
    ensures RowOrigin(6)
  {
    hide CubeRootFraction;
    CubeRootAt(0x6_19a4c116, 227);
    CubeRootAt(0x6_1e376c08, 229);
    CubeRootAt(0x6_2748774c, 233);
    CubeRootAt(0x6_34b0bcb5, 239);
    CubeRootAt(0x6_391c0cb3, 241);
    CubeRootAt(0x6_4ed8aa4a, 251);
    CubeRootAt(0x6_5b9cca4f, 257);
    CubeRootAt(0x6_682e6ff3, 263);
  }

  lemma RowOrigin7()
    ensures RowOrigin(7)
  {
    hide CubeRootFraction;
    CubeRootAt(0x6_748f82ee, 269);
    CubeRootAt(0x6_78a5636f, 271);
    CubeRootAt(0x6_84c87814, 277);
    CubeRootAt(0x6_8cc70208, 281);
    CubeRootAt(0x6_90befffa, 283);
    CubeRootAt(0x6_a4506ceb, 293);
    CubeRootAt(0x6_bef9a3f7, 307);
    CubeRootAt(0x6_c67178f2, 311);
  }

  /** The round constants come from the cube roots of the first 64 primes. */
  lemma RoundConstantOrigin(t: nat)
    requires t < 64
    ensures CubeRootFraction(Prime(t), K(t))
  {
    hide CubeRootFraction;
    RowOrigin0();
    RowOrigin1();
    RowOrigin2();
    RowOrigin3();
    RowOrigin4();
    RowOrigin5();
    RowOrigin6();
    RowOrigin7();
    assert RowOrigin(t / 8);
  }

  /** The initial hash value comes from the square roots of the first eight primes. */
  lemma InitialValueOrigin()
    ensures SquareRootFraction(2, INITIAL.a) && SquareRootFraction(3, INITIAL.b)
         && SquareRootFraction(5, INITIAL.c) && SquareRootFraction(7, INITIAL.d)
    ensures SquareRootFraction(11, INITIAL.e) && SquareRootFraction(13, INITIAL.f)
         && SquareRootFraction(17, INITIAL.g) && SquareRootFraction(19, INITIAL.h)
  {
    hide SquareRootFraction;
    SquareRootAt(0x1_6a09e667, 2);
    SquareRootAt(0x1_bb67ae85, 3);
    SquareRootAt(0x2_3c6ef372, 5);
    SquareRootAt(0x2_a54ff53a, 7);
    SquareRootAt(0x3_510e527f, 11);
    SquareRootAt(0x3_9b05688c, 13);
    SquareRootAt(0x4_1f83d9ab, 17);
    SquareRootAt(0x4_5be0cd19, 19);
  }
}
