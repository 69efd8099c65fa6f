/** Exact complex numbers as pairs of reals. */
module Complex {

  datatype Complex = Complex(re: real, im: real)

  const ZERO := Complex(0.0, 0.0)
  const ONE := Complex(1.0, 0.0)
  const MINUS_ONE := Complex(-1.0, 0.0)

  function Add(a: Complex, b: Complex): Complex {
    Complex(a.re + b.re, a.im + b.im)
  }

  function Sub(a: Complex, b: Complex): Complex {
    Complex(a.re - b.re, a.im - b.im)
  }

  function Mul(a: Complex, b: Complex): Complex {
    Complex(a.re * b.re - a.im * b.im, a.re * b.im + a.im * b.re)
  }

  function Pow(z: Complex, n: nat): Complex {
    if n == 0 then ONE else Mul(Pow(z, n - 1), z)
  }

  lemma MulComm(a: Complex, b: Complex)
    ensures Mul(a, b) == Mul(b, a)
  {
  }

  lemma MulAssocRe(a: real, b: real, c: real, d: real, e: real, f: real)
    ensures (a * c - b * d) * e - (a * d + b * c) * f == a * (c * e - d * f) - b * (c * f + d * e)
    ensures (a * c - b * d) * f + (a * d + b * c) * e == a * (c * f + d * e) + b * (c * e - d * f)
  {
  }

  lemma MulAssoc(a: Complex, b: Complex, c: Complex)
    ensures Mul(Mul(a, b), c) == Mul(a, Mul(b, c))
  {
    MulAssocRe(a.re, a.im, b.re, b.im, c.re, c.im);
  }

  lemma MulOne(a: Complex)
    ensures Mul(a, ONE) == a && Mul(ONE, a) == a
  {
  }

  lemma MulMinusOne(a: Complex)
    ensures Mul(MINUS_ONE, a) == Sub(ZERO, a) && Mul(a, MINUS_ONE) == Sub(ZERO, a)
  {
  }

  lemma MulAdd(a: Complex, b: Complex, c: Complex)
    ensures Mul(a, Add(b, c)) == Add(Mul(a, b), Mul(a, c))
  {
  }

  lemma {:induction false} PowAdd(z: Complex, m: nat, n: nat)
    ensures Pow(z, m + n) == Mul(Pow(z, m), Pow(z, n))
    decreases n
  {
    if n == 0 {
      MulOne(Pow(z, m));
    } else {
      PowAdd(z, m, n - 1);
      MulAssoc(Pow(z, m), Pow(z, n - 1), z);
    }
  }

  lemma {:induction false} PowPow(z: Complex, k: nat, n: nat)
    ensures Pow(Pow(z, k), n) == Pow(z, n * k)
    decreases n
  {
    hide Pow, Mul;
    MultipleStep(n, k);
    if n == 0 {
      PowStep(Pow(z, k), 0);
      PowStep(z, 0);
    } else {
      PowPow(z, k, n - 1);
      PowStep(Pow(z, k), n);
      PowAdd(z, (n - 1) * k, k);
    }
  }

  lemma PowStep(z: Complex, n: nat)
    ensures Pow(z, n) == if n == 0 then ONE else Mul(Pow(z, n - 1), z)
  {
  }

  lemma MultipleStep(n: nat, k: nat)
    ensures n == 0 ==> n * k == 0
    ensures n > 0 ==> (n - 1) * k >= 0 && (n - 1) * k + k == n * k
  {
  }

  /** The square of a power is the power of the square. */
  lemma PowSquare(z: Complex, n: nat)
    ensures Mul(Pow(z, n), Pow(z, n)) == Pow(Mul(z, z), n)
  {
    PowAdd(z, n, n);
    assert Pow(z, 2) == Mul(z, z) by {
      MulOne(z);
      assert Pow(z, 1) == z;
    }
    PowPow(z, 2, n);
  }
}
