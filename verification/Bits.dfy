/** The bits of a number, and what the word operations do to each of them. */
module Bits {
  import opened Words

  /** Bit j of x. */
  function Bit(x: nat, j: nat): (b: nat)
    ensures b <= 1
    decreases j
  {
    if j == 0 then x % 2 else Bit(x / 2, j - 1)
  }

  lemma {:induction false} XorBit(x: nat, y: nat, j: nat)
    ensures Bit(Xor(x, y), j) == BitXor(Bit(x, j), Bit(y, j))
    decreases j
  {
    HalfOfXor(x, y);
    if j > 0 {
      XorBit(x / 2, y / 2, j - 1);
    }
  }

  lemma HalfOfXor(x: nat, y: nat)
    ensures Xor(x, y) / 2 == Xor(x / 2, y / 2) && Xor(x, y) % 2 == BitXor(x % 2, y % 2)
  {
  }

  lemma {:induction false} AndBit(x: nat, y: nat, j: nat)
    ensures Bit(And(x, y), j) == Bit(x, j) * Bit(y, j)
    decreases j
  {
    HalfOfAnd(x, y);
    if j > 0 {
      AndBit(x / 2, y / 2, j - 1);
    }
  }

  lemma HalfOfAnd(x: nat, y: nat)
    ensures And(x, y) / 2 == And(x / 2, y / 2) && And(x, y) % 2 == (x % 2) * (y % 2)
  {
    BitProduct(x % 2, y % 2);
  }

  lemma BitProduct(i: nat, j: nat)
    requires i <= 1 && j <= 1
    ensures 0 <= i * j <= 1 && (i == 0 || j == 0 ==> i * j == 0)
  {
  }

  /** A number below 2^n is determined by its n bits. */
  lemma {:induction false} BitsDetermine(x: nat, y: nat, n: nat)
    requires x < Pow2(n) && y < Pow2(n) && forall j :: 0 <= j < n ==> Bit(x, j) == Bit(y, j)
    ensures x == y
    decreases n
  {
    if n > 0 {
      assert Bit(x, 0) == Bit(y, 0);
      forall j | 0 <= j < n - 1
        ensures Bit(x / 2, j) == Bit(y / 2, j)
      {
        assert Bit(x, j + 1) == Bit(y, j + 1);
      }
      BitsDetermine(x / 2, y / 2, n - 1);
    }
  }

  lemma MulMonotone(a: int, b: int, c: int)
    requires a <= b && c >= 0
    ensures a * c <= b * c && c * a <= c * b
  {
  }

  lemma Recompose(x: nat, p: nat)
    requires p >= 1
    ensures x / p * p + x % p == x && 0 <= x % p < p && x / p >= 0
  {
  }

  lemma QuotientOf(x: nat, p: nat, q: nat, r: nat)
    requires p >= 1 && x == q * p + r && r < p
    ensures x / p == q && x % p == r
  {
    Recompose(x, p);
    Difference(x / p, q, p);
    if x / p > q {
      MulMonotone(1, x / p - q, p);
    }
    if x / p < q {
      MulMonotone(x / p - q, -1, p);
    }
  }

  lemma Difference(a: int, b: int, p: int)
    ensures (a - b) * p == a * p - b * p
  {
  }

  lemma DivDiv(x: nat, p: nat)
    requires p >= 1
    ensures x / 2 / p == x / (2 * p)
  {
    var q, r := x / (2 * p), x % (2 * p);
    Recompose(x, 2 * p);
    MulDouble(q, p);
    var h := q * p;
    assert x / 2 == h + r / 2;
    QuotientOf(x / 2, p, q, r / 2);
  }

  lemma {:induction false} ShiftBit(x: nat, n: nat, j: nat, q: nat)
    requires q == x / Pow2(n)
    ensures Bit(q, j) == Bit(x, n + j)
    decreases n
  {
    if n == 0 {
      assert q == x;
    } else {
      DivDiv(x, Pow2(n - 1));
      ShiftBit(x / 2, n - 1, j, q);
    }
  }

  /** The bits of a high part above n low bits. */
  lemma {:induction false} JoinBit(h: nat, l: nat, n: nat, j: nat)
    requires l < Pow2(n)
    ensures Bit(h * Pow2(n) + l, j) == if j < n then Bit(l, j) else Bit(h, j - n)
    decreases n
  {
    hide Pow2;
    Pow2Step(n);
    if n > 0 {
      MulDouble(h, Pow2(n - 1));
      HalfOfJoin(h * Pow2(n - 1), l);
      if j > 0 {
        JoinBit(h, l / 2, n - 1, j - 1);
      }
    }
  }

  lemma Pow2Step(n: nat)
    ensures Pow2(n) == if n == 0 then 1 else 2 * Pow2(n - 1)
  {
  }

  lemma HalfOfJoin(g: nat, l: nat)
    ensures (2 * g + l) / 2 == g + l / 2 && (2 * g + l) % 2 == l % 2
  {
  }

  lemma LowBit(x: nat, n: nat, j: nat)
    requires j < n
    ensures x % Pow2(n) >= 0 && Bit(x % Pow2(n), j) == Bit(x, j)
  {
    hide Bit, Pow2;
    Recompose(x, Pow2(n));
    JoinBit(x / Pow2(n), x % Pow2(n), n, j);
  }

  lemma {:induction false} ComplementBit(x: nat, n: nat, j: nat)
    requires x < Pow2(n) && j < n
    ensures Bit(Pow2(n) - 1 - x, j) == 1 - Bit(x, j)
    decreases n
  {
    var p := Pow2(n - 1);
    assert Pow2(n) - 1 - x == 2 * (p - 1 - x / 2) + (1 - x % 2);
    if j > 0 {
      ComplementBit(x / 2, n - 1, j - 1);
    }
  }

  lemma {:induction false} ZeroBit(j: nat)
    ensures Bit(0, j) == 0
    decreases j
  {
    if j > 0 {
      ZeroBit(j - 1);
    }
  }

  /** Bit n + j of a word is bit j of its byte at place n. */
  lemma BitOfByte(x: nat, n: nat, j: nat, b: byte)
    requires x / Pow2(n) >= 0 && x / Pow2(n) % 0x100 == b && j < 8
    ensures Bit(x, n + j) == Bit(b, j)
  {
    hide Bit, Pow2;
    Pow2Values();
    ShiftBit(x, n, j, x / Pow2(n));
    LowBit(x / Pow2(n), 8, j);
  }
}
