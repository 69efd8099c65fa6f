/** The in-place bit-reversal permutation that precedes the butterfly stages. */
module BitReversal {
  import opened Words
  import opened Bits

  /** Reversal of the low m bits of i. */
  function Rev(m: nat, i: nat): (r: nat)
    ensures r < Pow2(m)
    decreases m
  {
    if m == 0 then 0 else (if i % 2 == 1 then Pow2(m - 1) else 0) + Rev(m - 1, i / 2)
  }

  lemma {:induction false} BitBelow(r: nat, p: nat, j: nat)
    requires r < Pow2(p) && j < p
    ensures Bit(r + Pow2(p), j) == Bit(r, j)
    decreases j
  {
    if j > 0 {
      assert (r + Pow2(p)) / 2 == r / 2 + Pow2(p - 1);
      BitBelow(r / 2, p - 1, j - 1);
    }
  }

  lemma {:induction false} BitTop(r: nat, p: nat)
    requires r < Pow2(p)
    ensures Bit(r + Pow2(p), p) == 1 && Bit(r, p) == 0
    decreases p
  {
    if p > 0 {
      assert (r + Pow2(p)) / 2 == r / 2 + Pow2(p - 1);
      BitTop(r / 2, p - 1);
    }
  }

  /** Rev reverses bits: bit j of the result is bit m - 1 - j of the index. */
  lemma {:induction false} RevReversesBits(m: nat, i: nat, j: nat)
    requires j < m
    ensures Bit(Rev(m, i), j) == Bit(i, m - 1 - j)
    decreases m
  {
    var rest := Rev(m - 1, i / 2);
    if j == m - 1 {
      BitTop(rest, m - 1);
    } else {
      BitBelow(rest, m - 1, j);
      RevReversesBits(m - 1, i / 2, j);
    }
  }

  /** Peels the top bit instead of the low one. */
  lemma {:induction false} RevTop(m: nat, lo: nat, top: bool)
    requires m > 0 && lo < Pow2(m - 1)
    ensures Rev(m, lo + if top then Pow2(m - 1) else 0) == 2 * Rev(m - 1, lo) + (if top then 1 else 0)
    decreases m
  {
    var i := lo + if top then Pow2(m - 1) else 0;
    if m == 1 {
      assert Rev(0, i / 2) == 0 && Rev(0, lo) == 0;
    } else {
      assert i / 2 == lo / 2 + if top then Pow2(m - 2) else 0;
      assert i % 2 == lo % 2;
      RevTop(m - 1, lo / 2, top);
    }
  }

  lemma {:induction false} RevInvolutive(m: nat, i: nat)
    requires i < Pow2(m)
    ensures Rev(m, Rev(m, i)) == i
    decreases m
  {
    if m > 0 {
      RevInvolutive(m - 1, i / 2);
      RevTop(m, Rev(m - 1, i / 2), i % 2 == 1);
    }
  }

  // ----- Testing and flipping one bit -----

  lemma {:induction false} AndPow2(r: nat, p: nat)
    requires r < Pow2(p)
    ensures And(r, Pow2(p)) == 0
    ensures And(r + Pow2(p), Pow2(p)) != 0
    decreases p
  {
    if p > 0 {
      assert Pow2(p) / 2 == Pow2(p - 1) && Pow2(p) % 2 == 0;
      assert (r + Pow2(p)) / 2 == r / 2 + Pow2(p - 1);
      AndPow2(r / 2, p - 1);
    }
  }

  lemma XorPow2(r: nat, p: nat)
    requires r < Pow2(p)
    ensures Xor(r, Pow2(p)) == r + Pow2(p)
    ensures Xor(r + Pow2(p), Pow2(p)) == r
  {
    hide Xor;
    XorSplit(1, r, p);
    XorAssoc(r, Pow2(p), Pow2(p));
    XorSelf(Pow2(p));
    XorZero(r);
  }

  /** The top bit of a reversal is set exactly when the index is odd. */
  lemma TopBitTest(p: nat, j: nat)
    requires p >= 1
    ensures And(Rev(p, j), Pow2(p - 1)) != 0 <==> j % 2 == 1
    ensures Xor(Rev(p, j), Pow2(p - 1)) == if j % 2 == 1 then Rev(p - 1, j / 2) else Rev(p, j) + Pow2(p - 1)
  {
    hide And, Xor;
    AndPow2(Rev(p - 1, j / 2), p - 1);
    XorPow2(Rev(p - 1, j / 2), p - 1);
  }

  /** An odd index carries: its top reversed bit is cleared and the rest moves on. */
  lemma TopBitSet(p: nat, j: nat)
    requires p >= 1 && j + 1 < Pow2(p) && And(Rev(p, j), Pow2(p - 1)) != 0
    ensures p >= 2 && j / 2 + 1 < Pow2(p - 1)
    ensures Xor(Rev(p, j), Pow2(p - 1)) == Rev(p - 1, j / 2)
    ensures Rev(p, j + 1) == Rev(p - 1, j / 2 + 1)
  {
    hide And, Xor;
    TopBitTest(p, j);
    assert (j + 1) % 2 == 0 && (j + 1) / 2 == j / 2 + 1;
  }

  lemma TopBitClear(p: nat, j: nat)
    requires p >= 1 && And(Rev(p, j), Pow2(p - 1)) == 0
    ensures Xor(Rev(p, j), Pow2(p - 1)) == Rev(p, j + 1)
  {
    hide And, Xor;
    TopBitTest(p, j);
    assert (j + 1) % 2 == 1 && (j + 1) / 2 == j / 2;
  }

  /** The incremental counter: the reversal of the next index from the reversal
      of this one, by flipping bits from the top until one becomes set. */
  method NextReversed(count: nat, reversed: nat, ghost m: nat, ghost index: nat) returns (next: nat)
    requires count == Pow2(m) && index + 1 < count && reversed == Rev(m, index)
    ensures next == Rev(m, index + 1)
  {
    hide And, Xor;
    next := reversed;
    var bit := count / 2;
    ghost var p: nat, j: nat := m, index;
    while And(next, bit) != 0
      invariant 1 <= p && bit == Pow2(p - 1) && j + 1 < Pow2(p)
      invariant next == Rev(p, j) && Rev(p, j + 1) == Rev(m, index + 1)
      decreases p
    {
      TopBitSet(p, j);
      next := Xor(next, bit);
      bit := bit / 2;
      p, j := p - 1, j / 2;
    }
    TopBitClear(p, j);
    next := Xor(next, bit);
  }

  /** The swaps below index are done: exactly the places they touch are permuted. */
  ghost predicate Swapped(before: seq<real>, after: seq<real>, m: nat, index: nat) {
    && |before| == |after| == Pow2(m)
    && forall i {:trigger after[i]} :: 0 <= i < |after| ==>
         after[i] == before[if i < index || Rev(m, i) < index then Rev(m, i) else i]
  }

  /** Before index 1 only place 0 counts, and it is its own reversal. */
  lemma SwappedNone(before: seq<real>, m: nat)
    requires |before| == Pow2(m)
    ensures Swapped(before, before, m, 1)
  {
    RevZero(m);
    forall i | 0 <= i < |before|
      ensures Rev(m, i) == 0 ==> i == 0
    {
      RevInvolutive(m, i);
    }
  }

  /** One step of the loop: the pair of index and its reversal is swapped once. */
  lemma SwapStep(before: seq<real>, middle: seq<real>, after: seq<real>, m: nat, index: nat)
    requires Swapped(before, middle, m, index) && index < |middle|
    requires var reversed := Rev(m, index);
      after == if index < reversed then middle[index := middle[reversed]][reversed := middle[index]] else middle
    ensures Swapped(before, after, m, index + 1)
  {
    hide Rev;
    var reversed := Rev(m, index);
    RevInvolutive(m, index);
    forall i | 0 <= i < |after|
      ensures after[i] == before[if i < index + 1 || Rev(m, i) < index + 1 then Rev(m, i) else i]
    {
      RevInvolutive(m, i);
      assert middle[i] == before[if i < index || Rev(m, i) < index then Rev(m, i) else i];
    }
  }

  /** Swapping only when index < reversed leaves out[i] == in[Rev(i)] in both arrays. */
  method BitReverse(real_: array<real>, imaginary: array<real>, ghost m: nat)
    requires real_ != imaginary && real_.Length == imaginary.Length == Pow2(m)
    modifies real_, imaginary
    ensures forall i :: 0 <= i < real_.Length ==>
      real_[i] == old(real_[Rev(m, i)]) && imaginary[i] == old(imaginary[Rev(m, i)])
  {
    hide Rev, Swapped;
    var count := real_.Length;
    var index, reversed := 1, 0;
    RevZero(m);
    ghost var re, im := real_[..], imaginary[..];
    SwappedNone(re, m);
    SwappedNone(im, m);
    while index < count
      invariant 1 <= index && (index <= count || count == 1)
      invariant reversed == Rev(m, index - 1)
      invariant Swapped(re, real_[..], m, index) && Swapped(im, imaginary[..], m, index)
    {
      reversed := NextReversed(count, reversed, m, index - 1);
      ghost var re', im' := real_[..], imaginary[..];
      if index < reversed {
        Swap(real_, index, reversed);
        Swap(imaginary, index, reversed);
      }
      SwapStep(re, re', real_[..], m, index);
      SwapStep(im, im', imaginary[..], m, index);
      index := index + 1;
    }
    SwappedAll(re, real_[..], m, index);
    SwappedAll(im, imaginary[..], m, index);
    assert forall i :: 0 <= i < count ==> real_[i] == real_[..][i] && imaginary[i] == imaginary[..][i];
  }

  method Swap(a: array<real>, i: nat, j: nat)
    requires i < j < a.Length
    modifies a
    ensures a[..] == old(a[..])[i := old(a[j])][j := old(a[i])]
  {
    var temp := a[i];
    a[i] := a[j];
    a[j] := temp;
  }

  lemma SwappedAll(before: seq<real>, after: seq<real>, m: nat, index: nat)
    requires Swapped(before, after, m, index) && index >= Pow2(m)
    ensures |before| == |after| == Pow2(m) && forall i :: 0 <= i < |after| ==> after[i] == before[Rev(m, i)]
  {
  }

  lemma {:induction false} RevZero(m: nat)
    ensures Rev(m, 0) == 0
    decreases m
  {
    if m > 0 {
      RevZero(m - 1);
    }
  }
}
