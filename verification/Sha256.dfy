/** SHA-256 as FIPS 180-4 defines it, and the firmware's block loop computing it. */
module Sha256 {
  import opened Words
  import opened Bits

  // ----- Section 4.1.2: functions -----

  function Not32(x: u32): u32 {
    WORD - 1 - x
  }

  lemma RotateBound(x: u32, p: nat, q: nat)
    requires p >= 1 && p * q == WORD
    ensures 0 <= x % p * q + x / p < WORD
  {
    var d := x / p;
    assert p * d <= x < p * q;
    if d >= q {
      MulMonotone(q, d, p);
    }
    MulMonotone(x % p, p - 1, q);
    assert (p - 1) * q == WORD - q;
  }

  /** Circular right shift: the bits shifted out re-enter at the top. */
  function RotateRight(x: u32, n: nat): u32
    requires 0 < n < 32
  {
    Pow2Values();
    Pow2Add(n, 32 - n);
    RotateBound(x, Pow2(n), Pow2(32 - n));
    x % Pow2(n) * Pow2(32 - n) + x / Pow2(n)
  }

  function ShiftRight(x: u32, n: nat): u32 {
    ShiftBound(x, Pow2(n));
    x / Pow2(n)
  }

  lemma ShiftBound(x: u32, p: nat)
    requires p >= 1
    ensures 0 <= x / p < WORD
  {
    assert x / p <= x;
  }

  function Xor3(x: u32, y: u32, z: u32): u32 {
    Xor32(Xor32(x, y), z)
  }

  function Ch(x: u32, y: u32, z: u32): u32 {
    Xor32(And32(x, y), And32(Not32(x), z))
  }

  function Maj(x: u32, y: u32, z: u32): u32 {
    Xor3(And32(x, y), And32(x, z), And32(y, z))
  }

  function BigSigma0(x: u32): u32 {
    Xor3(RotateRight(x, 2), RotateRight(x, 13), RotateRight(x, 22))
  }

  function BigSigma1(x: u32): u32 {
    Xor3(RotateRight(x, 6), RotateRight(x, 11), RotateRight(x, 25))
  }

  function SmallSigma0(x: u32): u32 {
    Xor3(RotateRight(x, 7), RotateRight(x, 18), ShiftRight(x, 3))
  }

  function SmallSigma1(x: u32): u32 {
    Xor3(RotateRight(x, 17), RotateRight(x, 19), ShiftRight(x, 10))
  }

  const ROUND_CONSTANTS: seq<seq<u32>> := [
    [0x428a2f98, 0x71374491, 0xb5c0fbcf, 0xe9b5dba5, 0x3956c25b, 0x59f111f1, 0x923f82a4, 0xab1c5ed5],
    [0xd807aa98, 0x12835b01, 0x243185be, 0x550c7dc3, 0x72be5d74, 0x80deb1fe, 0x9bdc06a7, 0xc19bf174],
    [0xe49b69c1, 0xefbe4786, 0x0fc19dc6, 0x240ca1cc, 0x2de92c6f, 0x4a7484aa, 0x5cb0a9dc, 0x76f988da],
    [0x983e5152, 0xa831c66d, 0xb00327c8, 0xbf597fc7, 0xc6e00bf3, 0xd5a79147, 0x06ca6351, 0x14292967],
    [0x27b70a85, 0x2e1b2138, 0x4d2c6dfc, 0x53380d13, 0x650a7354, 0x766a0abb, 0x81c2c92e, 0x92722c85],
    [0xa2bfe8a1, 0xa81a664b, 0xc24b8b70, 0xc76c51a3, 0xd192e819, 0xd6990624, 0xf40e3585, 0x106aa070],
    [0x19a4c116, 0x1e376c08, 0x2748774c, 0x34b0bcb5, 0x391c0cb3, 0x4ed8aa4a, 0x5b9cca4f, 0x682e6ff3],
    [0x748f82ee, 0x78a5636f, 0x84c87814, 0x8cc70208, 0x90befffa, 0xa4506ceb, 0xbef9a3f7, 0xc67178f2]]

  /** The round constants, K_t, of section 4.2.2. */
  function K(t: nat): u32
    requires t < 64
  {
    ROUND_CONSTANTS[t / 8][t % 8]
  }

  // ----- Section 6.2.2: compression -----

  datatype Hash = Hash(a: u32, b: u32, c: u32, d: u32, e: u32, f: u32, g: u32, h: u32)

  /** Section 5.3.3. */
  const INITIAL := Hash(0x6a09e667, 0xbb67ae85, 0x3c6ef372, 0xa54ff53a, 0x510e527f, 0x9b05688c, 0x1f83d9ab, 0x5be0cd19)

  type Block = b: seq<byte> | |b| == 64 witness seq(64, _ => 0)

  /** Modular addition of several words. */
  function Sum(s: int): u32 {
    s % WORD
  }

  /** The message schedule, W_t. */
  function Schedule(block: Block, t: nat): u32
    requires t < 64
  {
    if t < 16 then
      var b0: int, b1: int, b2: int, b3: int := block[4 * t], block[4 * t + 1], block[4 * t + 2], block[4 * t + 3];
      b0 * 0x100_0000 + b1 * 0x1_0000 + b2 * 0x100 + b3
    else
      Sum(SmallSigma1(Schedule(block, t - 2)) as int + Schedule(block, t - 7)
          + SmallSigma0(Schedule(block, t - 15)) + Schedule(block, t - 16))
  }

  /** One round: T1 and T2 and the rotation of the working variables. */
  function Round(v: Hash, k: u32, w: u32): Hash {
    var t1 := v.h as int + BigSigma1(v.e) + Ch(v.e, v.f, v.g) + k + w;
    var t2 := BigSigma0(v.a) as int + Maj(v.a, v.b, v.c);
    Hash(Sum(t1 + t2), v.a, v.b, v.c, Sum(v.d + t1), v.e, v.f, v.g)
  }

  function Rounds(v: Hash, block: Block, n: nat): Hash
    requires n <= 64
  {
    if n == 0 then v else Round(Rounds(v, block, n - 1), K(n - 1), Schedule(block, n - 1))
  }

  function AddHash(x: Hash, y: Hash): Hash {
    Hash(Add32(x.a, y.a), Add32(x.b, y.b), Add32(x.c, y.c), Add32(x.d, y.d),
         Add32(x.e, y.e), Add32(x.f, y.f), Add32(x.g, y.g), Add32(x.h, y.h))
  }

  function Compress(v: Hash, block: Block): Hash {
    AddHash(v, Rounds(v, block, 64))
  }

  /** The fold of the compression over consecutive 64-byte blocks. */
  function HashBlocks(v: Hash, message: seq<byte>): Hash
    decreases |message|
  {
    if |message| < 64 then v else HashBlocks(Compress(v, message[..64]), message[64..])
  }

  // ----- Section 5.1.1: padding -----

  /** The low n bytes of x, most significant first. */
  function BigEndian(x: nat, n: nat): (r: seq<byte>)
    ensures |r| == n
    decreases n
  {
    if n == 0 then [] else BigEndian(x / 0x100, n - 1) + [x % 0x100]
  }

  function Zeros(n: nat): seq<byte> {
    seq(n, _ => 0)
  }

  /** The smallest k >= 0 with length + 1 + k + 8 a multiple of 64 bytes. */
  function ZeroCount(length: nat): (k: nat)
    ensures (length + 9 + k) % 64 == 0 && k < 64
  {
    (55 - length) % 64
  }

  function PaddingOf(length: nat): seq<byte> {
    [0x80] + Zeros(ZeroCount(length)) + BigEndian(8 * length, 8)
  }

  function Pad(message: seq<byte>): seq<byte> {
    message + PaddingOf(|message|)
  }

  function Digest(v: Hash): seq<byte> {
    BigEndian(v.a, 4) + BigEndian(v.b, 4) + BigEndian(v.c, 4) + BigEndian(v.d, 4)
    + BigEndian(v.e, 4) + BigEndian(v.f, 4) + BigEndian(v.g, 4) + BigEndian(v.h, 4)
  }

  /** The hash function of the standard. */
  function Sha256(message: seq<byte>): seq<byte> {
    Digest(HashBlocks(INITIAL, Pad(message)))
  }

  // ----- Padding is injective -----

  function Pow256(n: nat): nat {
    if n == 0 then 1 else 0x100 * Pow256(n - 1)
  }

  lemma {:induction false} BigEndianInjective(x: nat, y: nat, n: nat)
    requires x < Pow256(n) && y < Pow256(n) && BigEndian(x, n) == BigEndian(y, n)
    ensures x == y
    decreases n
  {
    if n > 0 {
      var s, t := BigEndian(x, n), BigEndian(y, n);
      assert s[..n - 1] == BigEndian(x / 0x100, n - 1) && t[..n - 1] == BigEndian(y / 0x100, n - 1);
      assert s[n - 1] == x % 0x100 && t[n - 1] == y % 0x100;
      BigEndianInjective(x / 0x100, y / 0x100, n - 1);
    }
  }

  /** Messages below 2^61 bytes with equal padded forms are equal. */
  lemma PadInjective(m: seq<byte>, n: seq<byte>)
    requires |m| < 0x2000_0000_0000_0000 && |n| < 0x2000_0000_0000_0000 && Pad(m) == Pad(n)
    ensures m == n
  {
    hide BigEndian, Pad;
    PadSlices(m);
    PadSlices(n);
    Pow256Of8();
    BigEndianInjective(8 * |m|, 8 * |n|, 8);
  }

  lemma PadSlices(m: seq<byte>)
    ensures var p := Pad(m); |p| >= |m| + 8 && p[..|m|] == m && p[|p| - 8..] == BigEndian(8 * |m|, 8)
  {
    hide BigEndian;
  }

  lemma Pow256Of8()
    ensures Pow256(8) == 0x1_0000_0000_0000_0000
  {
    assert Pow256(4) == 0x1_0000_0000;
  }

  // ----- The firmware's loops -----

  ghost function State(state: array<u32>): Hash
    requires state.Length == 8
    reads state
  {
    Hash(state[0], state[1], state[2], state[3], state[4], state[5], state[6], state[7])
  }

  lemma AddSum(x: int, y: u32)
    ensures Add32(Sum(x), y) == Sum(x + y)
  {
  }

  lemma AddSums(x: int, y: int)
    ensures Add32(Sum(x), Sum(y)) == Sum(x + y)
  {
  }

  lemma SumOne(x: u32)
    ensures Sum(x) == x
  {
  }

  lemma Sum4(a: u32, b: u32, c: u32, d: u32)
    ensures Add32(Add32(Add32(a, b), c), d) == Sum(a as int + b + c + d)
  {
    hide Add32, Sum;
    SumOne(a);
    AddSum(a, b);
    AddSum(a as int + b, c);
    AddSum(a as int + b + c, d);
  }

  lemma Sum5(a: u32, b: u32, c: u32, d: u32, e: u32)
    ensures Add32(Add32(Add32(Add32(a, b), c), d), e) == Sum(a as int + b + c + d + e)
  {
    hide Add32, Sum;
    Sum4(a, b, c, d);
    AddSum(a as int + b + c + d, e);
  }

  method ExpandSchedule(block: Block) returns (words: array<u32>)
    ensures fresh(words) && words.Length == 64
    ensures forall t :: 0 <= t < 64 ==> words[t] == Schedule(block, t)
  {
    hide SmallSigma0, SmallSigma1, Sum, Add32;
    words := new u32[64];
    for i := 0 to 16
      invariant forall t :: 0 <= t < i ==> words[t] == Schedule(block, t)
    {
      var b0: int, b1: int, b2: int, b3: int := block[i * 4], block[i * 4 + 1], block[i * 4 + 2], block[i * 4 + 3];
      words[i] := b0 * 0x100_0000 + b1 * 0x1_0000 + b2 * 0x100 + b3;
    }
    for i := 16 to 64
      invariant forall t :: 0 <= t < i ==> words[t] == Schedule(block, t)
    {
      var s0 := SmallSigma0(words[i - 15]);
      var s1 := SmallSigma1(words[i - 2]);
      words[i] := Add32(Add32(Add32(words[i - 16], s0), words[i - 7]), s1);
      ScheduleStep(block, i);
    }
  }

  /** The firmware adds the four terms in another order. */
  lemma ScheduleStep(block: Block, t: nat)
    requires 16 <= t < 64
    ensures Schedule(block, t) ==
      Add32(Add32(Add32(Schedule(block, t - 16), SmallSigma0(Schedule(block, t - 15))), Schedule(block, t - 7)),
            SmallSigma1(Schedule(block, t - 2)))
  {
    hide SmallSigma0, SmallSigma1, Sum, Add32;
    var w2, w7, w15, w16 := Schedule(block, t - 2), Schedule(block, t - 7), Schedule(block, t - 15), Schedule(block, t - 16);
    Sum4(w16, SmallSigma0(w15), w7, SmallSigma1(w2));
    assert SmallSigma1(w2) as int + w7 + SmallSigma0(w15) + w16 == w16 as int + SmallSigma0(w15) + w7 + SmallSigma1(w2);
  }

  method CompressionStep(v: Hash, k: u32, w: u32) returns (r: Hash)
    ensures r == Round(v, k, w)
  {
    hide BigSigma0, BigSigma1, Ch, Maj, Sum, Add32;
    var s1, choice := BigSigma1(v.e), Ch(v.e, v.f, v.g);
    var temp1 := Add32(Add32(Add32(Add32(v.h, s1), choice), k), w);
    var s0, majority := BigSigma0(v.a), Maj(v.a, v.b, v.c);
    var temp2 := Add32(s0, majority);
    Sum5(v.h, s1, choice, k, w);
    SumOne(s0);
    AddSum(s0, majority);
    AddSums(v.h as int + s1 + choice + k + w, s0 as int + majority);
    SumOne(v.d);
    AddSums(v.d, v.h as int + s1 + choice + k + w);
    r := Hash(Add32(temp1, temp2), v.a, v.b, v.c, Add32(v.d, temp1), v.e, v.f, v.g);
  }

  /** transform: one block folded into the state array. */
  method Transform(state: array<u32>, block: Block)
    requires state.Length == 8
    modifies state
    ensures State(state) == Compress(old(State(state)), block)
  {
    hide Round, Schedule, Add32;
    var words := ExpandSchedule(block);
    ghost var start := State(state);
    var v := Hash(state[0], state[1], state[2], state[3], state[4], state[5], state[6], state[7]);
    for i := 0 to 64
      invariant v == Rounds(start, block, i) && State(state) == start
      invariant forall t :: 0 <= t < 64 ==> words[t] == Schedule(block, t)
    {
      assert Rounds(start, block, i + 1) == Round(Rounds(start, block, i), K(i), Schedule(block, i));
      v := CompressionStep(v, K(i), words[i]);
    }
    state[0], state[1], state[2], state[3] :=
      Add32(state[0], v.a), Add32(state[1], v.b), Add32(state[2], v.c), Add32(state[3], v.d);
    state[4], state[5], state[6], state[7] :=
      Add32(state[4], v.e), Add32(state[5], v.f), Add32(state[6], v.g), Add32(state[7], v.h);
  }

  /** The zero-filled tail: the last partial block, the marker byte, and the bit
      length at the end of the first or second block. */
  method BuildTail(rest: seq<byte>, length: nat) returns (tail: array<byte>, padded: nat)
    requires |rest| < 64 && length % 64 == |rest|
    ensures fresh(tail) && tail.Length == 128
    ensures padded == (if |rest| < 56 then 64 else 128) && tail[..padded] == rest + PaddingOf(length)
  {
    hide BigEndian, PaddingOf, Pow256;
    tail := new byte[128](_ => 0);
    var remaining := |rest|;
    for i := 0 to remaining
      invariant forall j :: 0 <= j < i ==> tail[j] == rest[j]
      invariant forall j :: i <= j < 128 ==> tail[j] == 0
    {
      tail[i] := rest[i];
    }
    tail[remaining] := 0x80;
    padded := if remaining < 56 then 64 else 128;
    WriteLength(tail, padded, 8 * length);
    TailIsPadded(tail[..padded], rest, length);
  }

  /** The bit length, low byte last. */
  method WriteLength(tail: array<byte>, padded: nat, bits: nat)
    requires 8 <= padded <= tail.Length
    modifies tail
    ensures forall j :: 0 <= j < tail.Length && !(padded - 8 <= j < padded) ==> tail[j] == old(tail[j])
    ensures forall j :: padded - 8 <= j < padded ==> tail[j] == BigEndian(bits, 8)[j - (padded - 8)]
  {
    hide BigEndian, Pow256;
    for i := 0 to 8
      invariant forall j :: 0 <= j < tail.Length && !(padded - i <= j < padded) ==> tail[j] == old(tail[j])
      invariant forall j :: padded - i <= j < padded ==> tail[j] == BigEndian(bits, 8)[j - (padded - 8)]
    {
      ByteOfBigEndian(bits, 8, i);
      tail[padded - 1 - i] := bits / Pow256(i) % 0x100;
    }
  }

  lemma TailIsPadded(t: seq<byte>, rest: seq<byte>, length: nat)
    requires |rest| < 64 && length % 64 == |rest| && |t| == if |rest| < 56 then 64 else 128
    requires forall j :: 0 <= j < |rest| ==> t[j] == rest[j]
    requires t[|rest|] == 0x80
    requires forall j :: |rest| < j < |t| - 8 ==> t[j] == 0
    requires forall j :: |t| - 8 <= j < |t| ==> t[j] == BigEndian(8 * length, 8)[j - (|t| - 8)]
    ensures t == rest + PaddingOf(length)
  {
    hide BigEndian;
    assert |t| == |rest| + 1 + ZeroCount(length) + 8;
    assert t[..|rest|] == rest;
    assert t[|rest| + 1..|t| - 8] == Zeros(ZeroCount(length));
    assert t[|t| - 8..] == BigEndian(8 * length, 8);
    assert t == t[..|rest|] + [t[|rest|]] + t[|rest| + 1..|t| - 8] + t[|t| - 8..];
  }

  lemma {:induction false} ByteOfBigEndian(x: nat, n: nat, i: nat)
    requires i < n
    ensures Pow256(i) > 0 && BigEndian(x, n)[n - 1 - i] == x / Pow256(i) % 0x100
    decreases n
  {
    if i > 0 {
      ByteOfBigEndian(x / 0x100, n - 1, i - 1);
      DivTwice(x, Pow256(i - 1));
    }
  }

  lemma DivTwice(x: nat, p: nat)
    requires p > 0
    ensures x / 0x100 / p == x / (0x100 * p)
  {
    var q, r := x / 0x100 / p, x / 0x100 % p;
    assert x / 0x100 == p * q + r;
    var e := 0x100 * r + x % 0x100;
    assert x == (0x100 * p) * q + e by {
      assert 0x100 * (p * q) == (0x100 * p) * q;
    }
    DivUnique(x, 0x100 * p, q, e);
  }

  lemma DivUnique(x: int, d: int, q: int, e: int)
    requires x == d * q + e && 0 <= e < d
    ensures x / d == q
  {
    var k := x / d - q;
    assert x == d * (x / d) + x % d;
    assert d * k == e - x % d;
    if k >= 1 {
      ProductAtLeast(d, k);
    } else if k <= -1 {
      ProductAtLeast(d, -k);
    }
  }

  lemma ProductAtLeast(d: int, k: int)
    requires d >= 0 && k >= 1
    ensures d * k >= d && d * (-k) <= -d
  {
  }

  /** The whole blocks of the message. */
  method HashWholeBlocks(state: array<u32>, data: seq<byte>) returns (offset: nat)
    requires state.Length == 8
    modifies state
    ensures offset <= |data| && |data| - offset < 64 && offset % 64 == 0
    ensures HashBlocks(State(state), data[offset..] + PaddingOf(|data|)) == HashBlocks(old(State(state)), Pad(data))
  {
    hide Compress, PaddingOf;
    ghost var padding := PaddingOf(|data|);
    ghost var start := State(state);
    offset := 0;
    assert data[0..] + padding == Pad(data);
    while |data| - offset >= 64
      invariant 0 <= offset <= |data| && offset % 64 == 0
      invariant HashBlocks(State(state), data[offset..] + padding) == HashBlocks(start, Pad(data))
    {
      hide HashBlocks;
      HashBlocksStep(State(state), data[offset..], padding);
      assert data[offset..][..64] == data[offset..offset + 64] && data[offset..][64..] == data[offset + 64..];
      Transform(state, data[offset..offset + 64]);
      offset := offset + 64;
    }
  }

  /** The one or two padded blocks of the tail. */
  method HashTail(state: array<u32>, rest: seq<byte>, length: nat)
    requires state.Length == 8 && |rest| < 64 && length % 64 == |rest|
    modifies state
    ensures State(state) == HashBlocks(old(State(state)), rest + PaddingOf(length))
  {
    hide Compress, PaddingOf, HashBlocks;
    var tail, padded := BuildTail(rest, length);
    ghost var message := tail[..padded];
    ghost var before := State(state);
    Transform(state, tail[..64]);
    if padded == 128 {
      Transform(state, tail[64..]);
      HashTwoBlocks(before, message);
      assert message[..64] == tail[..64] && message[64..] == tail[64..];
    } else {
      HashOneBlock(before, message);
      assert message == tail[..64];
    }
  }

  /** The block loop and the one- or two-block tail compute the standard's hash. */
  method Compute(data: seq<byte>) returns (digest: seq<byte>)
    ensures digest == Sha256(data)
  {
    hide BigEndian, HashBlocks, PaddingOf, Pad;
    var state := new u32[8];
    state[0], state[1], state[2], state[3] := 0x6a09e667, 0xbb67ae85, 0x3c6ef372, 0xa54ff53a;
    state[4], state[5], state[6], state[7] := 0x510e527f, 0x9b05688c, 0x1f83d9ab, 0x5be0cd19;
    assert State(state) == INITIAL;
    var offset := HashWholeBlocks(state, data);
    HashTail(state, data[offset..], |data|);
    digest := BigEndian(state[0], 4) + BigEndian(state[1], 4) + BigEndian(state[2], 4) + BigEndian(state[3], 4)
              + BigEndian(state[4], 4) + BigEndian(state[5], 4) + BigEndian(state[6], 4) + BigEndian(state[7], 4);
  }

  lemma HashBlocksStep(v: Hash, rest: seq<byte>, padding: seq<byte>)
    requires |rest| >= 64
    ensures HashBlocks(v, rest + padding) == HashBlocks(Compress(v, rest[..64]), rest[64..] + padding)
  {
    hide Compress;
    assert (rest + padding)[..64] == rest[..64] && (rest + padding)[64..] == rest[64..] + padding;
  }

  lemma HashOneBlock(v: Hash, message: seq<byte>)
    requires |message| == 64
    ensures HashBlocks(v, message) == Compress(v, message)
  {
    hide Compress;
    assert message[..64] == message && message[64..] == [];
  }

  lemma HashTwoBlocks(v: Hash, message: seq<byte>)
    requires |message| == 128
    ensures HashBlocks(v, message) == Compress(Compress(v, message[..64]), message[64..])
  {
    hide Compress;
    HashOneBlock(Compress(v, message[..64]), message[64..]);
  }
}
