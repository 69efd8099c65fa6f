/** The iterative in-place transform computes the discrete Fourier transform. */
module Fft {
  import opened Words
  import opened Complex
  import opened BitReversal

  // ----- The transform as a plain sum -----

  /** Sample i of a finite signal, zero outside it. */
  function At(x: seq<Complex>, i: int): Complex {
    if 0 <= i < |x| then x[i] else ZERO
  }

  /** The first n terms of the discrete Fourier transform of x at frequency k:
      the sum over i < n of x[i] * w^(i * k). */
  function DftSum(x: seq<Complex>, w: Complex, k: nat, n: nat): Complex {
    if n == 0 then ZERO else Add(DftSum(x, w, k, n - 1), Mul(At(x, n - 1), Pow(w, (n - 1) * k)))
  }

  function Dft(x: seq<Complex>, w: Complex, k: nat): Complex {
    DftSum(x, w, k, |x|)
  }

  /** The principal roots: a square root chain down to -1. */
  ghost predicate RootsOfUnity(root: nat -> Complex) {
    && root(2) == MINUS_ONE
    && forall p: nat :: p >= 1 ==> IsSquareRoot(root(Pow2(p + 1)), root(Pow2(p)))
  }

  ghost predicate IsSquareRoot(w: Complex, square: Complex) {
    Mul(w, w) == square
  }

  // ----- Polynomials over strided samples -----

  /** The polynomial with coefficients x[s], x[s + t], ..., n of them, at z. */
  ghost function Poly(x: seq<Complex>, s: int, t: int, n: nat, z: Complex): Complex {
    if n == 0 then ZERO else Add(Poly(x, s, t, n - 1, z), Mul(At(x, s + (n - 1) * t), Pow(z, n - 1)))
  }

  lemma {:induction false} PolyIsDft(x: seq<Complex>, w: Complex, k: nat, n: nat)
    ensures Poly(x, 0, 1, n, Pow(w, k)) == DftSum(x, w, k, n)
    decreases n
  {
    if n > 0 {
      hide Mul, Add, Pow;
      PolyIsDft(x, w, k, n - 1);
      PowPow(w, k, n - 1);
      assert 0 + (n - 1) * 1 == n - 1;
    }
  }

  /** Regroups an even and an odd term. */
  lemma Regroup(e: Complex, o: Complex, z: Complex, a: Complex, b: Complex, q: Complex)
    ensures Add(Add(Add(e, Mul(z, o)), Mul(a, q)), Mul(b, Mul(q, z)))
         == Add(Add(e, Mul(a, q)), Mul(z, Add(o, Mul(b, q))))
  {
    MulAdd(z, o, Mul(b, q));
    assert Mul(b, Mul(q, z)) == Mul(z, Mul(b, q)) by {
      MulAssoc(b, q, z);
      MulComm(Mul(b, q), z);
    }
    RegroupSums(e, Mul(z, o), Mul(a, q), Mul(z, Mul(b, q)));
  }

  lemma RegroupSums(e: Complex, zo: Complex, aq: Complex, zbq: Complex)
    ensures Add(Add(Add(e, zo), aq), zbq) == Add(Add(e, aq), Add(zo, zbq))
  {
  }

  /** Splitting into even and odd coefficients: P(z) = E(z^2) + z * O(z^2). */
  lemma {:induction false} PolySplit(x: seq<Complex>, s: int, t: int, n: nat, z: Complex)
    ensures Poly(x, s, t, 2 * n, z)
         == Add(Poly(x, s, 2 * t, n, Mul(z, z)), Mul(z, Poly(x, s + t, 2 * t, n, Mul(z, z))))
    decreases n
  {
    if n == 0 {
      assert Mul(z, ZERO) == ZERO;
    } else {
      hide Mul, Add;
      PolySplit(x, s, t, n - 1, z);
      var m := 2 * (n - 1);
      EvenPower(z, n - 1);
      var q := Pow(z, m);
      StrideIndices(s, t, n - 1);
      assert Pow(z, m + 1) == Mul(q, z);
      var a, b := At(x, s + m * t), At(x, s + (m + 1) * t);
      assert Poly(x, s, t, m + 1, z) == Add(Poly(x, s, t, m, z), Mul(a, q));
      assert Poly(x, s, t, m + 2, z) == Add(Poly(x, s, t, m + 1, z), Mul(b, Mul(q, z)));
      Regroup(Poly(x, s, 2 * t, n - 1, Mul(z, z)), Poly(x, s + t, 2 * t, n - 1, Mul(z, z)), z, a, b, q);
    }
  }

  lemma EvenPower(z: Complex, n: nat)
    ensures Pow(z, 2 * n) == Pow(Mul(z, z), n)
  {
    hide Mul;
    PowAdd(z, n, n);
    PowSquare(z, n);
  }

  lemma StrideIndices(s: int, t: int, i: int)
    ensures s + i * (2 * t) == s + (2 * i) * t
    ensures (s + t) + i * (2 * t) == s + (2 * i + 1) * t
  {
  }

  // ----- What each block holds after p stages -----

  /** Entry k of block j once blocks have length 2^p: the transform of the
      samples whose index is congruent to the reversal of j. */
  ghost function Target(x: seq<Complex>, root: nat -> Complex, m: nat, p: nat, j: nat, k: nat): Complex
    requires p <= m
  {
    Poly(x, Rev(m - p, j), Pow2(m - p), Pow2(p), Pow(root(Pow2(p)), k))
  }

  lemma {:induction false} RootHalfTurn(root: nat -> Complex, p: nat)
    requires RootsOfUnity(root)
    ensures Pow(root(Pow2(p + 1)), Pow2(p)) == MINUS_ONE
    decreases p
  {
    var w := root(Pow2(p + 1));
    if p == 0 {
      MulOne(w);
      assert Pow(w, 1) == Mul(Pow(w, 0), w);
    } else {
      hide Mul;
      RootHalfTurn(root, p - 1);
      assert IsSquareRoot(root(Pow2(p + 1)), root(Pow2(p)));
      EvenPower(w, Pow2(p - 1));
    }
  }

  /** Half a turn further negates the power and keeps its square. */
  lemma HalfTurnPower(root: nat -> Complex, p: nat, k: nat)
    requires RootsOfUnity(root)
    ensures Pow(root(Pow2(p + 1)), Pow2(p) + k) == Sub(ZERO, Pow(root(Pow2(p + 1)), k))
  {
    hide Mul, Sub;
    var w := root(Pow2(p + 1));
    RootHalfTurn(root, p);
    PowAdd(w, Pow2(p), k);
    MulMinusOne(Pow(w, k));
  }

  lemma SquareOfPower(root: nat -> Complex, p: nat, k: nat)
    requires RootsOfUnity(root) && (p == 0 ==> k == 0)
    ensures var z := Pow(root(Pow2(p + 1)), k); Mul(z, z) == Pow(root(Pow2(p)), k)
  {
    if p == 0 {
      assert Mul(ONE, ONE) == ONE;
    } else {
      hide Mul;
      assert IsSquareRoot(root(Pow2(p + 1)), root(Pow2(p)));
      PowSquare(root(Pow2(p + 1)), k);
    }
  }

  lemma NegatedSquare(z: Complex)
    ensures Mul(Sub(ZERO, z), Sub(ZERO, z)) == Mul(z, z)
  {
  }

  lemma NegatedTerm(e: Complex, z: Complex, o: Complex)
    ensures Add(e, Mul(Sub(ZERO, z), o)) == Sub(e, Mul(o, z))
    ensures Add(e, Mul(z, o)) == Add(e, Mul(o, z))
  {
  }

  /** The butterfly identity between consecutive stages. */
  lemma TargetStep(x: seq<Complex>, root: nat -> Complex, m: nat, p: nat, j: nat, k: nat)
    requires RootsOfUnity(root) && p < m && k < Pow2(p)
    ensures var e, o := Target(x, root, m, p, 2 * j, k), Target(x, root, m, p, 2 * j + 1, k);
            var z := Pow(root(Pow2(p + 1)), k);
            && Target(x, root, m, p + 1, j, k) == Add(e, Mul(o, z))
            && Target(x, root, m, p + 1, j, Pow2(p) + k) == Sub(e, Mul(o, z))
  {
    hide Mul, Add, Sub, Pow, Poly;
    var z := Pow(root(Pow2(p + 1)), k);
    var s, t := Rev(m - p - 1, j), Pow2(m - p - 1);
    assert Rev(m - p, 2 * j) == s;
    assert (2 * j + 1) / 2 == j && Rev(m - p, 2 * j + 1) == s + t;
    SquareOfPower(root, p, k);
    PolySplit(x, s, t, Pow2(p), z);
    HalfTurnPower(root, p, k);
    var nz := Sub(ZERO, z);
    NegatedSquare(z);
    PolySplit(x, s, t, Pow2(p), nz);
    NegatedTerm(Target(x, root, m, p, 2 * j, k), z, Target(x, root, m, p, 2 * j + 1, k));
  }

  lemma TargetInitial(x: seq<Complex>, root: nat -> Complex, m: nat, j: nat)
    ensures Target(x, root, m, 0, j, 0) == At(x, Rev(m, j))
  {
    var v := At(x, Rev(m, j));
    MulOne(v);
    assert Poly(x, Rev(m, j), Pow2(m), 1, ONE) == Add(ZERO, Mul(v, ONE));
    assert Pow(root(1), 0) == ONE;
  }

  lemma TargetFinal(x: seq<Complex>, root: nat -> Complex, m: nat, k: nat)
    requires |x| == Pow2(m)
    ensures Target(x, root, m, m, 0, k) == Dft(x, root(|x|), k)
  {
    PolyIsDft(x, root(|x|), k, |x|);
  }

  // ----- Positions -----

  /** Position k of block j when blocks have the given length. */
  ghost function Position(j: nat, length: nat, k: nat): nat {
    j * length + k
  }

  lemma PositionBound(j: nat, length: nat, k: nat, blocks: nat)
    requires j < blocks && k < length
    ensures Position(j, length, k) < blocks * length
  {
    assert (j + 1) * length <= blocks * length by {
      MulMonotone(j + 1, blocks, length);
    }
    assert (j + 1) * length == j * length + length;
  }

  lemma MulMonotone(a: nat, b: nat, c: nat)
    requires a <= b
    ensures a * c <= b * c
  {
  }

  /** Different blocks do not overlap. */
  lemma PositionApart(i: nat, j: nat, length: nat, k: nat)
    requires i != j && k < length
    ensures Position(i, length, k) < Position(j, length, 0) || Position(j, length, 0) + length <= Position(i, length, k)
  {
    if i < j {
      MulMonotone(i + 1, j, length);
      assert (i + 1) * length == i * length + length;
    } else {
      MulMonotone(j + 1, i, length);
      assert (j + 1) * length == j * length + length;
    }
  }

  lemma PositionHalves(j: nat, half: nat, k: nat)
    ensures Position(2 * j, half, k) == Position(j, 2 * half, k)
    ensures Position(2 * j + 1, half, k) == Position(j, 2 * half, half + k)
  {
  }

  // ----- The in-place algorithm -----

  /** The split real and imaginary arrays as one sequence of complex numbers. */
  ghost function Snapshot(real_: array<real>, imaginary: array<real>): (z: seq<Complex>)
    requires real_.Length == imaginary.Length
    reads real_, imaginary
    ensures |z| == real_.Length
    ensures forall i :: 0 <= i < |z| ==> z[i] == Complex(real_[i], imaginary[i])
  {
    seq(real_.Length, i requires 0 <= i < real_.Length == imaginary.Length reads real_, imaginary => Complex(real_[i], imaginary[i]))
  }

  /** The two entries a butterfly produces at positions u and v. */
  ghost predicate Butterfly(before: seq<Complex>, after: seq<Complex>, u: int, v: int, twiddle: Complex) {
    && 0 <= u < |before| == |after| && 0 <= v < |before|
    && after[u] == Add(before[u], Mul(before[v], twiddle))
    && after[v] == Sub(before[u], Mul(before[v], twiddle))
  }

  /** The first n butterflies of the block at base, and nothing else. */
  ghost predicate BlockDone(before: seq<Complex>, after: seq<Complex>, base: nat, half: nat, root: Complex, n: nat) {
    && |before| == |after|
    && (forall i :: 0 <= i < |before| && !(base <= i < base + n || base + half <= i < base + half + n) ==> after[i] == before[i])
    && (forall k {:trigger Pow(root, k)} :: 0 <= k < n ==> Butterfly(before, after, base + k, base + half + k, Pow(root, k)))
  }

  /** One block of butterflies, with the running twiddle factor. */
  method Butterflies(real_: array<real>, imaginary: array<real>, base: nat, half: nat, root: Complex)
    requires real_ != imaginary && real_.Length == imaginary.Length && base + 2 * half <= real_.Length
    modifies real_, imaginary
    ensures BlockDone(old(Snapshot(real_, imaginary)), Snapshot(real_, imaginary), base, half, root, half)
  {
    hide Mul, Add, Sub;
    ghost var before := Snapshot(real_, imaginary);
    var twiddle := ONE;
    for offset := 0 to half
      invariant twiddle == Pow(root, offset)
      invariant BlockDone(before, Snapshot(real_, imaginary), base, half, root, offset)
    {
      ghost var middle := Snapshot(real_, imaginary);
      var even := base + offset;
      var odd := even + half;
      var e := Complex(real_[even], imaginary[even]);
      var o := Mul(Complex(real_[odd], imaginary[odd]), twiddle);
      var difference, sum := Sub(e, o), Add(e, o);
      real_[odd], imaginary[odd] := difference.re, difference.im;
      real_[even], imaginary[even] := sum.re, sum.im;
      BlockAdvances(before, middle, Snapshot(real_, imaginary), base, half, root, offset);
      twiddle := Mul(twiddle, root);
    }
  }

  lemma BlockAdvances(before: seq<Complex>, middle: seq<Complex>, after: seq<Complex>,
                      base: nat, half: nat, root: Complex, n: nat)
    requires n < half && BlockDone(before, middle, base, half, root, n)
    requires Butterfly(middle, after, base + n, base + half + n, Pow(root, n))
    requires forall i :: 0 <= i < |middle| && i != base + n && i != base + half + n ==> after[i] == middle[i]
    ensures BlockDone(before, after, base, half, root, n + 1)
  {
    hide Mul, Add, Sub, Pow;
  }

  /** The first n blocks hold their butterflies and the rest is unchanged. */
  ghost predicate StagePrefix(before: seq<Complex>, after: seq<Complex>, half: nat, root: Complex, n: nat) {
    && |before| == |after|
    && (forall i :: Position(n, 2 * half, 0) <= i < |before| ==> after[i] == before[i])
    && (forall j, k {:trigger Position(j, 2 * half, k)} :: 0 <= j < n && 0 <= k < half ==>
          Butterfly(before, after, Position(j, 2 * half, k), Position(j, 2 * half, half + k), Pow(root, k)))
  }

  lemma StagePrefixAdvances(before: seq<Complex>, middle: seq<Complex>, after: seq<Complex>,
                            half: nat, root: Complex, n: nat, blocks: nat)
    requires n < blocks && |before| == blocks * (2 * half)
    requires StagePrefix(before, middle, half, root, n)
    requires BlockDone(middle, after, Position(n, 2 * half, 0), half, root, half)
    ensures StagePrefix(before, after, half, root, n + 1)
  {
    hide Mul, Add, Sub, Pow;
    PositionNext(n, 2 * half);
    forall j, k {:trigger Position(j, 2 * half, k)} | 0 <= j < n + 1 && 0 <= k < half
      ensures Butterfly(before, after, Position(j, 2 * half, k), Position(j, 2 * half, half + k), Pow(root, k))
    {
      PositionBound(j, 2 * half, half + k, blocks);
      if j < n {
        PositionApart(j, n, 2 * half, k);
        PositionApart(j, n, 2 * half, half + k);
      }
    }
  }

  /** One stage: butterflies in every block of twice the half length. */
  method Stage(real_: array<real>, imaginary: array<real>, half: nat, root: Complex, ghost blocks: nat)
    requires real_ != imaginary && half >= 1
    requires real_.Length == imaginary.Length == blocks * (2 * half)
    modifies real_, imaginary
    ensures StagePrefix(old(Snapshot(real_, imaginary)), Snapshot(real_, imaginary), half, root, blocks)
  {
    hide Mul, Add, Sub, Pow, Butterfly, BlockDone;
    var base := 0;
    ghost var j: nat := 0;
    ghost var before := Snapshot(real_, imaginary);
    while base < real_.Length
      invariant j <= blocks && base == Position(j, 2 * half, 0)
      invariant StagePrefix(before, Snapshot(real_, imaginary), half, root, j)
      decreases blocks - j
    {
      PositionBound(j, 2 * half, 2 * half - 1, blocks);
      ghost var middle := Snapshot(real_, imaginary);
      Butterflies(real_, imaginary, base, half, root);
      StagePrefixAdvances(before, middle, Snapshot(real_, imaginary), half, root, j, blocks);
      PositionNext(j, 2 * half);
      base := base + 2 * half;
      j := j + 1;
    }
    if j < blocks {
      PositionBound(j, 2 * half, 0, blocks);
    }
  }

  lemma PositionNext(j: nat, length: nat)
    ensures Position(j + 1, length, 0) == Position(j, length, 0) + length
  {
  }

  /** Every block holds the transform of its own residue class. */
  ghost predicate StageDone(z: seq<Complex>, x: seq<Complex>, root: nat -> Complex, m: nat, p: nat)
    requires p <= m
  {
    forall j, k {:trigger Position(j, Pow2(p), k)} :: 0 <= j < Pow2(m - p) && 0 <= k < Pow2(p) ==>
      var i := Position(j, Pow2(p), k); i < |z| && z[i] == Target(x, root, m, p, j, k)
  }

  lemma StageAdvances(before: seq<Complex>, after: seq<Complex>, x: seq<Complex>, root: nat -> Complex, m: nat, p: nat)
    requires RootsOfUnity(root) && p < m && StageDone(before, x, root, m, p)
    requires StagePrefix(before, after, Pow2(p), root(Pow2(p + 1)), Pow2(m - p - 1))
    ensures StageDone(after, x, root, m, p + 1)
  {
    hide Mul, Add, Sub, Pow, Poly, Target;
    var half := Pow2(p);
    forall j, k {:trigger Position(j, Pow2(p + 1), k)} | 0 <= j < Pow2(m - p - 1) && 0 <= k < Pow2(p + 1)
      ensures var i := Position(j, Pow2(p + 1), k); i < |after| && after[i] == Target(x, root, m, p + 1, j, k)
    {
      var low := if k < half then k else k - half;
      var z := Pow(root(Pow2(p + 1)), low);
      assert Butterfly(before, after, Position(j, 2 * half, low), Position(j, 2 * half, half + low), z);
      PositionHalves(j, half, low);
      TargetStep(x, root, m, p, j, low);
      assert before[Position(2 * j, half, low)] == Target(x, root, m, p, 2 * j, low);
      assert before[Position(2 * j + 1, half, low)] == Target(x, root, m, p, 2 * j + 1, low);
    }
  }

  /** The whole transform: bit reversal, then one stage per doubling of the
      block length, leaves the discrete Fourier transform of the input. */
  method Transform(real_: array<real>, imaginary: array<real>, root: nat -> Complex, ghost m: nat)
    requires real_ != imaginary && real_.Length == imaginary.Length == Pow2(m)
    requires RootsOfUnity(root)
    modifies real_, imaginary
    ensures forall k :: 0 <= k < real_.Length ==>
      Complex(real_[k], imaginary[k]) == Dft(old(Snapshot(real_, imaginary)), root(real_.Length), k)
  {
    hide Mul, Add, Sub, Pow, Poly, Target, Dft, RootsOfUnity, StagePrefix, StageDone, Rev;
    var count := real_.Length;
    ghost var x := Snapshot(real_, imaginary);
    BitReverse(real_, imaginary, m);
    ReversedIsStageZero(Snapshot(real_, imaginary), x, root, m);
    var length := 2;
    ghost var p: nat := 0;
    while length <= count
      invariant p <= m && length == Pow2(p + 1)
      invariant StageDone(Snapshot(real_, imaginary), x, root, m, p)
      decreases m - p
    {
      Pow2Strict(p + 1, m);
      ghost var before := Snapshot(real_, imaginary);
      BlockCount(m, p);
      Stage(real_, imaginary, length / 2, root(length), Pow2(m - p - 1));
      StageAdvances(before, Snapshot(real_, imaginary), x, root, m, p);
      length := 2 * length;
      p := p + 1;
    }
    Pow2Strict(p, m);
    assert p == m;
    LastStageIsDft(Snapshot(real_, imaginary), x, root, m);
  }

  /** The bit-reversed signal, seen as blocks of length 1. */
  lemma ReversedIsStageZero(z: seq<Complex>, x: seq<Complex>, root: nat -> Complex, m: nat)
    requires |z| == |x| == Pow2(m) && forall i :: 0 <= i < |z| ==> z[i] == x[Rev(m, i)]
    ensures StageDone(z, x, root, m, 0)
  {
    hide Target, Rev;
    forall j, k {:trigger Position(j, Pow2(0), k)} | 0 <= j < Pow2(m - 0) && 0 <= k < Pow2(0)
      ensures var i := Position(j, Pow2(0), k); i < |z| && z[i] == Target(x, root, m, 0, j, k)
    {
      TargetInitial(x, root, m, j);
    }
  }

  /** One block of full length holds the transform itself. */
  lemma LastStageIsDft(z: seq<Complex>, x: seq<Complex>, root: nat -> Complex, m: nat)
    requires |z| == |x| == Pow2(m) && StageDone(z, x, root, m, m)
    ensures forall k :: 0 <= k < |z| ==> z[k] == Dft(x, root(|x|), k)
  {
    hide Target, Dft;
    forall k | 0 <= k < |z|
      ensures z[k] == Dft(x, root(|x|), k)
    {
      assert Position(0, Pow2(m), k) == k;
      TargetFinal(x, root, m, k);
    }
  }

  /** A smaller or equal power has a smaller or equal exponent. */
  lemma {:induction false} Pow2Strict(a: nat, b: nat)
    ensures Pow2(a) <= Pow2(b) ==> a <= b
    ensures Pow2(a + 1) > Pow2(b) ==> b <= a
    decreases a + b
  {
    if a > 0 && b > 0 {
      Pow2Strict(a - 1, b - 1);
    }
  }

  lemma BlockCount(m: nat, p: nat)
    requires p < m
    ensures Pow2(m) == Pow2(m - p - 1) * (2 * Pow2(p))
  {
    Pow2Add(m - p - 1, p + 1);
  }
}
