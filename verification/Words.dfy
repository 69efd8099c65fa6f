/** Unsigned machine words as bounded integers, with the bitwise operations the
    firmware applies to them and their little-endian byte fields. */
module Words {

  type byte = x: int | 0 <= x < 0x100
  type u16 = x: int | 0 <= x < 0x1_0000
  type u32 = x: int | 0 <= x < 0x1_0000_0000

  const WORD: int := 0x1_0000_0000

  /** Wrap-around addition and subtraction of uint32_t. */
  function Add32(a: u32, b: u32): u32 {
    (a + b) % WORD
  }

  function Sub32(a: u32, b: u32): u32 {
    (a - b) % WORD
  }

  lemma ModShift(x: int, k: int)
    ensures (x + WORD * k) % WORD == x % WORD
  {
  }

  lemma ModDifference(a: int, b: int)
    ensures (a % WORD - b % WORD) % WORD == (a - b) % WORD
  {
    ModShift(a % WORD - b % WORD, a / WORD - b / WORD);
  }

  function Pow2(n: nat): (r: nat)
    ensures r >= 1
  {
    if n == 0 then 1 else 2 * Pow2(n - 1)
  }

  lemma Pow2Values()
    ensures Pow2(8) == 0x100 && Pow2(24) == 0x100_0000 && Pow2(31) == 0x8000_0000 && Pow2(32) == WORD
  {
    assert Pow2(4) == 16;
    assert Pow2(8) == 0x100;
    assert Pow2(12) == 0x1000;
    assert Pow2(16) == 0x1_0000;
    assert Pow2(20) == 0x10_0000;
    assert Pow2(24) == 0x100_0000;
    assert Pow2(28) == 0x1000_0000;
    assert Pow2(31) == 0x8000_0000;
  }

  lemma {:induction false} Pow2Add(m: nat, n: nat)
    ensures Pow2(m + n) == Pow2(m) * Pow2(n)
  {
    if m > 0 {
      Pow2Add(m - 1, n);
    }
  }

  // ----- Bitwise operations on naturals -----

  /** The sum of two bits without carry. */
  function BitXor(i: nat, j: nat): nat {
    if i == j then 0 else 1
  }

  function Xor(x: nat, y: nat): nat {
    if x == 0 && y == 0 then 0 else 2 * Xor(x / 2, y / 2) + BitXor(x % 2, y % 2)
  }

  function And(x: nat, y: nat): nat {
    if x == 0 || y == 0 then 0 else 2 * And(x / 2, y / 2) + (x % 2) * (y % 2)
  }

  lemma {:induction false} XorBound(x: nat, y: nat, n: nat)
    requires x < Pow2(n) && y < Pow2(n)
    ensures Xor(x, y) < Pow2(n)
  {
    if n > 0 && (x != 0 || y != 0) {
      XorBound(x / 2, y / 2, n - 1);
    }
  }

  lemma {:induction false} AndBound(x: nat, y: nat)
    ensures And(x, y) <= x && And(x, y) <= y
  {
    if x != 0 && y != 0 {
      AndBound(x / 2, y / 2);
    }
  }

  lemma {:induction false} XorTopBit(x: nat, y: nat, n: nat)
    requires x < Pow2(n) <= y < Pow2(n + 1)
    ensures Xor(x, y) >= Pow2(n)
  {
    if n > 0 {
      XorTopBit(x / 2, y / 2, n - 1);
    }
  }

  lemma {:induction false} XorZero(x: nat)
    ensures Xor(x, 0) == x && Xor(0, x) == x
  {
    if x != 0 {
      XorZero(x / 2);
    }
  }

  lemma {:induction false} XorComm(x: nat, y: nat)
    ensures Xor(x, y) == Xor(y, x)
  {
    if x != 0 || y != 0 {
      XorComm(x / 2, y / 2);
    }
  }

  lemma XorDouble(a: nat, i: nat, b: nat, j: nat)
    requires i <= 1 && j <= 1
    ensures Xor(2 * a + i, 2 * b + j) == 2 * Xor(a, b) + BitXor(i, j)
  {
    var x, y := 2 * a + i, 2 * b + j;
    assert x / 2 == a && y / 2 == b;
    assert x % 2 == i && y % 2 == j;
    if x == 0 && y == 0 {
      assert a == 0 && b == 0 && i == 0 && j == 0;
    }
  }

  lemma XorAssocStep(a: nat, i: nat, b: nat, j: nat, c: nat, k: nat)
    requires i <= 1 && j <= 1 && k <= 1
    requires Xor(Xor(a, b), c) == Xor(a, Xor(b, c))
    ensures Xor(2 * Xor(a, b) + BitXor(i, j), 2 * c + k) == Xor(2 * a + i, 2 * Xor(b, c) + BitXor(j, k))
  {
    XorDouble(Xor(a, b), BitXor(i, j), c, k);
    XorDouble(a, i, Xor(b, c), BitXor(j, k));
  }

  /** A word as twice its half plus its low bit. */
  lemma Halve(x: nat) returns (a: nat, i: nat)
    ensures x == 2 * a + i && i <= 1
    ensures x > 0 ==> a < x
    ensures x == 0 ==> a == 0
  {
    a, i := x / 2, x % 2;
  }

  lemma {:induction false} XorAssoc(x: nat, y: nat, z: nat)
    ensures Xor(Xor(x, y), z) == Xor(x, Xor(y, z))
    decreases x + y + z
  {
    if x + y + z != 0 {
      var a, i := Halve(x);
      var b, j := Halve(y);
      var c, k := Halve(z);
      XorAssoc(a, b, c);
      XorDouble(a, i, b, j);
      XorDouble(b, j, c, k);
      XorAssocStep(a, i, b, j, c, k);
    }
  }

  lemma {:induction false} XorSelf(x: nat)
    ensures Xor(x, x) == 0
  {
    if x != 0 {
      XorSelf(x / 2);
    }
  }

  lemma XorCancel(x: nat, y: nat, z: nat)
    requires Xor(x, z) == Xor(y, z)
    ensures x == y
  {
    XorAssoc(x, z, z);
    XorAssoc(y, z, z);
    XorSelf(z);
    XorZero(x);
    XorZero(y);
  }

  lemma XorSplitStep(h: nat, a: nat, i: nat)
    requires i <= 1 && Xor(a, h) == h + a
    ensures Xor(2 * a + i, 2 * h) == 2 * h + (2 * a + i)
  {
    XorDouble(a, i, h, 0);
  }

  lemma MulDouble(q: nat, p: nat)
    ensures q * (2 * p) == 2 * (q * p)
  {
  }

  /** A word is the exclusive or of its high part and its low n bits. */
  lemma {:induction false} XorSplit(q: nat, r: nat, n: nat)
    requires r < Pow2(n)
    ensures Xor(r, q * Pow2(n)) == q * Pow2(n) + r
    decreases n
  {
    if n == 0 {
      XorZero(q);
    } else {
      var a, i := Halve(r);
      XorSplit(q, a, n - 1);
      XorSplitStep(q * Pow2(n - 1), a, i);
      MulDouble(q, Pow2(n - 1));
    }
  }

  /** Exclusive or of two uint32_t values. */
  function Xor32(a: u32, b: u32): u32 {
    Pow2Values();
    XorBound(a, b, 32);
    Xor(a, b)
  }

  /** Bitwise and of two uint32_t values. */
  function And32(a: u32, b: u32): u32 {
    AndBound(a, b);
    And(a, b)
  }

  // ----- Little-endian fields -----

  function Put16(v: u16): (r: seq<byte>)
    ensures |r| == 2
  {
    [v % 0x100, v / 0x100]
  }

  function Get16(s: seq<byte>): u16
    requires |s| == 2
  {
    var b0: int, b1: int := s[0], s[1];
    b0 + 0x100 * b1
  }

  function Put32(v: u32): (r: seq<byte>)
    ensures |r| == 4
  {
    var q0: int := v / 0x100;
    var q1: int := q0 / 0x100;
    [v % 0x100, q0 % 0x100, q1 % 0x100, q1 / 0x100]
  }

  function Get32(s: seq<byte>): (r: u32)
    requires |s| == 4
  {
    var b0: int, b1: int, b2: int, b3: int := s[0], s[1], s[2], s[3];
    b0 + 0x100 * (b1 + 0x100 * (b2 + 0x100 * b3))
  }

  lemma Get16Put16(v: u16)
    ensures Get16(Put16(v)) == v
  {
  }

  lemma Put16Get16(s: seq<byte>)
    requires |s| == 2
    ensures Put16(Get16(s)) == s
  {
  }

  lemma Get32Put32(v: u32)
    ensures Get32(Put32(v)) == v
  {
  }

  lemma Put32Get32(s: seq<byte>)
    requires |s| == 4
    ensures Put32(Get32(s)) == s
  {
    var b0: int, b1: int, b2: int, b3: int := s[0], s[1], s[2], s[3];
    var q1 := b2 + 0x100 * b3;
    var q0 := b1 + 0x100 * q1;
    var v := b0 + 0x100 * q0;
    assert v % 0x100 == b0 && v / 0x100 == q0;
    assert q0 % 0x100 == b1 && q0 / 0x100 == q1;
    assert q1 % 0x100 == b2 && q1 / 0x100 == b3;
  }
}
