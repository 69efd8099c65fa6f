/** The windowed numeric filter and the digital debouncer. */
module Filters {
  import opened Reals

  const MAX_WINDOW: nat := 9

  datatype FilterType = NoFilter | MovingAverage | Exponential | MedianFilter | DigitalDebounce

  // ----- What the filters mean -----

  /** The last min(n, w) inputs of a history of n. */
  function Recent(history: seq<real>, w: nat): seq<real> {
    if |history| <= w then history else history[|history| - w..]
  }

  predicate Sorted(s: seq<real>) {
    forall i, j :: 0 <= i < j < |s| ==> s[i] <= s[j]
  }

  /** The middle element of a sorted sequence, or the mean of the two middle ones. */
  function Middle(s: seq<real>): real
    requires s != []
  {
    var h := |s| / 2;
    if |s| % 2 == 1 then s[h] else (s[h - 1] + s[h]) * 0.5
  }

  /** m is the median of s: the middle of its elements in sorted order. */
  ghost predicate IsMedian(s: seq<real>, m: real)
    requires s != []
  {
    exists t :: IsSortingOf(t, s) && m == Middle(t)
  }

  ghost predicate IsSortingOf(t: seq<real>, s: seq<real>)
    ensures IsSortingOf(t, s) ==> |t| == |s|
  {
    SortingLength(t, s);
    Sorted(t) && multiset(t) == multiset(s)
  }

  lemma SortingLength(t: seq<real>, s: seq<real>)
    ensures multiset(t) == multiset(s) ==> |t| == |s|
  {
    assert |multiset(t)| == |t| && |multiset(s)| == |s|;
  }

  /** The exponentially weighted average, starting from the first input. */
  function Ema(history: seq<real>, alpha: real): real
    requires history != []
  {
    var n := |history|;
    if n == 1 then history[0] else Blend(alpha, history[n - 1], Ema(history[..n - 1], alpha))
  }

  function Blend(alpha: real, value: real, average: real): real {
    alpha * value + (1.0 - alpha) * average
  }

  /** What an update must return after the given history, its last input included. */
  ghost predicate FilterOutput(kind: FilterType, window: nat, alpha: real, history: seq<real>, output: real)
    requires history != [] && window >= 1
  {
    match kind
    case NoFilter => output == history[|history| - 1]
    case Exponential => output == Ema(history, alpha)
    case MovingAverage => output == Sum(Recent(history, window)) / |Recent(history, window)| as real
    case _ => IsMedian(Recent(history, window), output)
  }

  // ----- Sorting -----

  /** Where insertion puts x: after the elements that do not exceed it. */
  function InsertAt(s: seq<real>, x: real, k: nat): seq<real>
    requires k <= |s|
  {
    s[..k] + [x] + s[k..]
  }

  lemma InsertIndex(s: seq<real>, x: real, k: nat, l: nat)
    requires k <= |s| && l <= |s|
    ensures InsertAt(s, x, k)[l] == if l < k then s[l] else if l == k then x else s[l - 1]
  {
  }

  lemma InsertSorts(s: seq<real>, x: real, k: nat)
    requires Sorted(s) && k <= |s|
    requires k > 0 ==> s[k - 1] <= x
    requires forall i :: k <= i < |s| ==> x < s[i]
    ensures Sorted(InsertAt(s, x, k))
  {
    hide InsertAt;
    var t := InsertAt(s, x, k);
    InsertLength(s, x, k);
    forall i, j | 0 <= i < j < |t|
      ensures t[i] <= t[j]
    {
      InsertIndex(s, x, k, i);
      InsertIndex(s, x, k, j);
    }
  }

  lemma InsertLength(s: seq<real>, x: real, k: nat)
    requires k <= |s|
    ensures |InsertAt(s, x, k)| == |s| + 1
  {
  }

  lemma InsertPermutes(s: seq<real>, x: real, k: nat)
    requires k <= |s|
    ensures multiset(InsertAt(s, x, k)) == multiset(s + [x])
  {
    assert s + [x] == s[..k] + s[k..] + [x];
    assert multiset(s + [x]) == multiset(s[..k]) + multiset(s[k..]) + multiset{x};
  }

  /** Shifting the elements from k on up by one and writing x at k is insertion. */
  lemma ShiftIsInsert(w: seq<real>, s: seq<real>, x: real, k: nat)
    requires k <= |s| && |w| == |s| + 1 && w[k] == x
    requires forall l :: 0 <= l < k ==> w[l] == s[l]
    requires forall l :: k < l <= |s| ==> w[l] == s[l - 1]
    ensures w == InsertAt(s, x, k)
  {
  }

  /** The inner loop: shifts larger elements up and drops work[i] into place. */
  method Insert(work: array<real>, i: nat) returns (ghost k: nat)
    requires 0 < i < work.Length
    modifies work
    ensures Inserted(old(work[..]), work[..], i, k)
  {
    hide InsertAt;
    ghost var before := work[..];
    ghost var s := work[..i];
    var current := work[i];
    var j := i - 1;
    while j >= 0 && work[j] > current
      invariant -1 <= j < i
      invariant forall l :: 0 <= l <= j ==> work[l] == s[l]
      invariant forall l :: j + 1 < l <= i ==> work[l] == s[l - 1]
      invariant forall l :: j + 1 <= l < i ==> current < s[l]
      invariant forall l :: i < l < work.Length ==> work[l] == old(work[l])
    {
      work[j + 1] := work[j];
      j := j - 1;
    }
    work[j + 1] := current;
    k := j + 1;
    ShiftIsInsert(work[..i + 1], s, current, k);
    assert before[..i] == s && work[..][..i + 1] == work[..i + 1];
    assert work[..][i + 1..] == before[i + 1..];
  }

  /** Element i went to place k of the elements before it, where it belongs. */
  ghost predicate Inserted(before: seq<real>, after: seq<real>, i: nat, k: nat) {
    && k <= i < |before| == |after|
    && after[..i + 1] == InsertAt(before[..i], before[i], k) && after[i + 1..] == before[i + 1..]
    && (k > 0 ==> before[k - 1] <= before[i]) && forall l :: k <= l < i ==> before[i] < before[l]
  }

  /** One outer step: a longer sorted prefix of the same elements. */
  lemma InsertStep(before: seq<real>, after: seq<real>, i: nat, k: nat)
    requires Inserted(before, after, i, k) && Sorted(before[..i])
    ensures Sorted(after[..i + 1]) && multiset(after) == multiset(before)
  {
    hide InsertAt, Sorted;
    var s, x := before[..i], before[i];
    assert Sorted(InsertAt(s, x, k)) by {
      InsertSorts(s, x, k);
    }
    InsertPermutes(s, x, k);
    assert after == after[..i + 1] + after[i + 1..];
    assert before == (s + [x]) + before[i + 1..];
  }

  /** The same, when only the first count places are sorted. */
  lemma InsertStepIn(before: seq<real>, after: seq<real>, i: nat, k: nat, count: nat)
    requires Inserted(before, after, i, k) && Sorted(before[..i]) && i < count <= |before|
    ensures Sorted(after[..i + 1]) && multiset(after[..count]) == multiset(before[..count])
  {
    hide InsertAt, Sorted;
    var b, a := before[..count], after[..count];
    assert b[..i] == before[..i] && a[..i + 1] == after[..i + 1];
    assert a[i + 1..] == after[i + 1..][..count - (i + 1)] && b[i + 1..] == before[i + 1..][..count - (i + 1)];
    InsertStep(b, a, i, k);
  }

  method InsertionSort(work: array<real>, count: nat)
    requires 1 <= count <= work.Length
    modifies work
    ensures IsSortingOf(work[..count], old(work[..count]))
  {
    hide Inserted, Sorted;
    ghost var start := work[..count];
    OneSorted(work[..1]);
    for i := 1 to count
      invariant Sorted(work[..i]) && multiset(work[..count]) == multiset(start)
    {
      ghost var before := work[..];
      assert before[..i] == work[..i] && before[..count] == work[..count];
      ghost var k := Insert(work, i);
      InsertStepIn(before, work[..], i, k, count);
      assert work[..][..i + 1] == work[..i + 1] && work[..][..count] == work[..count];
    }
    SortingLength(work[..count], start);
  }

  lemma OneSorted(s: seq<real>)
    requires |s| <= 1
    ensures Sorted(s)
  {
  }

  lemma LastIsLargest(s: seq<real>, x: real)
    requires Sorted(s) && x in s
    ensures x <= s[|s| - 1]
  {
  }

  lemma DropLast(s: seq<real>)
    requires s != []
    ensures multiset(s) == multiset(s[..|s| - 1]) + multiset{s[|s| - 1]}
    ensures Sorted(s) ==> Sorted(s[..|s| - 1])
  {
    assert s == s[..|s| - 1] + [s[|s| - 1]];
  }

  lemma CancelElement(p: multiset<real>, q: multiset<real>, x: real)
    requires p + multiset{x} == q + multiset{x}
    ensures p == q
  {
    assert p == (p + multiset{x}) - multiset{x};
    assert q == (q + multiset{x}) - multiset{x};
  }

  /** A sequence has only one sorting, so the median is unique. */
  lemma {:induction false} SortingUnique(s: seq<real>, t: seq<real>)
    requires Sorted(s) && Sorted(t) && multiset(s) == multiset(t)
    ensures s == t
    decreases |s|
  {
    hide Sorted;
    SortingLength(s, t);
    if s != [] {
      var n := |s| - 1;
      var a, b := s[n], t[n];
      assert a in multiset(s) && b in multiset(t);
      LastIsLargest(t, a);
      LastIsLargest(s, b);
      DropLast(s);
      DropLast(t);
      CancelElement(multiset(s[..n]), multiset(t[..n]), a);
      SortingUnique(s[..n], t[..n]);
      assert s == s[..n] + [a] && t == t[..n] + [a];
    }
  }

  lemma MedianUnique(s: seq<real>, m: real, n: real)
    requires s != [] && IsMedian(s, m) && IsMedian(s, n)
    ensures m == n
  {
    var t :| IsSortingOf(t, s) && m == Middle(t);
    var u :| IsSortingOf(u, s) && n == Middle(u);
    SortingUnique(t, u);
  }

  /** The number of elements strictly below m. */
  function CountBelow(s: seq<real>, m: real): nat {
    if s == [] then 0 else CountBelow(s[..|s| - 1], m) + (if s[|s| - 1] < m then 1 else 0)
  }

  function CountAbove(s: seq<real>, m: real): nat {
    if s == [] then 0 else CountAbove(s[..|s| - 1], m) + (if s[|s| - 1] > m then 1 else 0)
  }

  lemma {:induction false} CountsConcat(s: seq<real>, t: seq<real>, m: real)
    ensures CountBelow(s + t, m) == CountBelow(s, m) + CountBelow(t, m)
    ensures CountAbove(s + t, m) == CountAbove(s, m) + CountAbove(t, m)
    decreases |t|
  {
    if t == [] {
      assert s + t == s;
    } else {
      var u := t[..|t| - 1];
      CountsConcat(s, u, m);
      assert (s + t)[..|s + t| - 1] == s + u;
    }
  }

  /** Counting does not depend on the order. */
  lemma {:induction false} CountsPermute(s: seq<real>, t: seq<real>, m: real)
    requires multiset(s) == multiset(t)
    ensures CountBelow(s, m) == CountBelow(t, m) && CountAbove(s, m) == CountAbove(t, m)
    decreases |s|
  {
    SortingLength(t, s);
    if s != [] {
      var x := s[|s| - 1];
      DropLast(s);
      assert x in multiset(t);
      var k :| 0 <= k < |t| && t[k] == x;
      var rest := t[..k] + t[k + 1..];
      assert t == t[..k] + [x] + t[k + 1..];
      CancelElement(multiset(s[..|s| - 1]), multiset(rest), x);
      CountsPermute(s[..|s| - 1], rest, m);
      CountsConcat(t[..k], t[k + 1..], m);
      CountsConcat(t[..k], [x], m);
      CountsConcat(t[..k] + [x], t[k + 1..], m);
    }
  }

  lemma {:induction false} FewBelow(t: seq<real>, m: real, k: nat)
    requires k <= |t| && forall i :: k <= i < |t| ==> t[i] >= m
    ensures CountBelow(t, m) <= k
    decreases |t|
  {
    if |t| > 0 {
      FewBelow(t[..|t| - 1], m, if k < |t| then k else k - 1);
    }
  }

  lemma {:induction false} FewAbove(t: seq<real>, m: real, k: nat)
    requires k <= |t| && forall i :: 0 <= i < k ==> t[i] <= m
    ensures CountAbove(t, m) <= |t| - k
    decreases |t|
  {
    if |t| > 0 {
      FewAbove(t[..|t| - 1], m, if k < |t| then k else k - 1);
    }
  }

  /** At most half the elements lie strictly below the median and at most half strictly
      above. It is an element for an odd count, and for an even count halfway between
      two elements with none in between. */
  lemma MedianSplits(s: seq<real>, m: real)
    requires s != [] && IsMedian(s, m)
    ensures 2 * CountBelow(s, m) <= |s| && 2 * CountAbove(s, m) <= |s|
    ensures |s| % 2 == 1 ==> m in s
    ensures |s| % 2 == 0 ==> exists a, b :: Neighbours(s, a, b) && m == (a + b) / 2.0
  {
    hide Sorted, Middle, CountBelow, CountAbove, Neighbours;
    var t :| IsSortingOf(t, s) && m == Middle(t);
    MiddleSplits(t);
    CountsPermute(s, t, m);
    SameElements(s, t);
    if |s| % 2 == 0 {
      NeighboursPermute(s, t, t[|t| / 2 - 1], t[|t| / 2]);
    }
  }

  lemma SameElements(s: seq<real>, t: seq<real>)
    requires multiset(s) == multiset(t)
    ensures forall x :: x in s <==> x in t
  {
    forall x
      ensures x in s <==> x in t
    {
      assert x in s <==> x in multiset(s);
      assert x in t <==> x in multiset(t);
    }
  }

  lemma NeighboursPermute(s: seq<real>, t: seq<real>, a: real, b: real)
    requires Neighbours(t, a, b) && forall x :: x in s <==> x in t
    ensures Neighbours(s, a, b)
  {
  }

  /** The middle of a sorted sequence. */
  lemma MiddleSplits(t: seq<real>)
    requires t != [] && Sorted(t)
    ensures 2 * CountBelow(t, Middle(t)) <= |t| && 2 * CountAbove(t, Middle(t)) <= |t|
    ensures |t| % 2 == 1 ==> Middle(t) in t
    ensures |t| % 2 == 0 ==>
      var a, b := t[|t| / 2 - 1], t[|t| / 2]; Neighbours(t, a, b) && Middle(t) == (a + b) / 2.0
  {
    hide CountBelow, CountAbove;
    var h, m := |t| / 2, Middle(t);
    FewBelow(t, m, h);
    FewAbove(t, m, if |t| % 2 == 1 then h + 1 else h);
  }

  /** Two elements in order, with no element strictly between them. */
  ghost predicate Neighbours(s: seq<real>, a: real, b: real) {
    a in s && b in s && a <= b && forall x :: x in s ==> x <= a || x >= b
  }

  // ----- The exponential average -----

  function Power(r: real, n: nat): real {
    if n == 0 then 1.0 else Power(r, n - 1) * r
  }

  /** The last k inputs, weighted by alpha * (1 - alpha)^j from the newest back. */
  function Weighted(history: seq<real>, alpha: real, k: nat): real
    requires k <= |history|
  {
    if k == 0 then 0.0
    else Weighted(history, alpha, k - 1) + Term(alpha, Power(1.0 - alpha, k - 1), history[|history| - k])
  }

  function Term(alpha: real, p: real, x: real): real {
    alpha * p * x
  }

  lemma {:induction false} EmaUnrolls(history: seq<real>, alpha: real, k: nat)
    requires k < |history|
    ensures Ema(history, alpha) ==
      Weighted(history, alpha, k) + Times(Power(1.0 - alpha, k), Ema(history[..|history| - k], alpha))
    decreases k
  {
    hide Ema, Blend, Times, Term;
    var n := |history|;
    if k == 0 {
      assert history[..n] == history;
      TimesOne(Ema(history, alpha));
    } else {
      EmaUnrolls(history, alpha, k - 1);
      EmaOfPrefix(history, alpha, n - k);
      var p, x, e := Power(1.0 - alpha, k - 1), history[n - k], Ema(history[..n - k], alpha);
      assert history[..n - (k - 1)] == history[..n - k + 1];
      UnrollStep(Ema(history, alpha), Weighted(history, alpha, k - 1), p, alpha, x, e);
      PowerStep(1.0 - alpha, k);
    }
  }

  lemma EmaOfPrefix(history: seq<real>, alpha: real, m: nat)
    requires 1 <= m < |history|
    ensures Ema(history[..m + 1], alpha) == Blend(alpha, history[m], Ema(history[..m], alpha))
  {
    assert history[..m + 1][..m] == history[..m];
  }

  function Times(p: real, e: real): real {
    p * e
  }

  lemma TimesOne(e: real)
    ensures Times(1.0, e) == e
  {
  }

  lemma PowerStep(r: real, k: nat)
    requires k > 0
    ensures Power(r, k) == Times(Power(r, k - 1), r)
  {
  }

  lemma UnrollStep(total: real, w: real, p: real, alpha: real, x: real, e: real)
    requires total == w + Times(p, Blend(alpha, x, e))
    ensures total == w + Term(alpha, p, x) + Times(Times(p, 1.0 - alpha), e)
  {
    var u, v := alpha * x, (1.0 - alpha) * e;
    assert p * (u + v) == p * u + p * v;
  }

  /** The average weighs input n - j by alpha * (1 - alpha)^j and the first by the rest. */
  lemma EmaIsWeightedSum(history: seq<real>, alpha: real)
    requires history != []
    ensures var n := |history| - 1;
      Ema(history, alpha) == Weighted(history, alpha, n) + Power(1.0 - alpha, n) * history[0]
  {
    hide Weighted, Power, Blend;
    EmaUnrolls(history, alpha, |history| - 1);
    FirstAverage(history[..1], alpha);
  }

  lemma FirstAverage(history: seq<real>, alpha: real)
    requires |history| == 1
    ensures Ema(history, alpha) == history[0]
  {
  }

  // ----- The ring -----

  /** Read from the oldest entry on, the ring holds the recent inputs in order. */
  ghost predicate RingHolds(values: seq<real>, index: nat, count: nat, recent: seq<real>) {
    index <= count <= |values| && recent == values[index..count] + values[..index]
  }

  function NextIndex(index: nat, window: nat): nat {
    if index + 1 == window then 0 else index + 1
  }

  lemma NextIndexIsMod(index: nat, window: nat)
    requires index < window
    ensures (index + 1) % window == NextIndex(index, window)
  {
    if index + 1 < window {
      SmallMod(index + 1, window);
    }
  }

  lemma SmallMod(a: nat, b: nat)
    requires a < b
    ensures a % b == a
  {
  }

  lemma RecentGrows(history: seq<real>, window: nat, x: real)
    ensures |history| < window ==> Recent(history, window) == history && Recent(history + [x], window) == history + [x]
    ensures |history| >= window > 0 ==>
      |Recent(history, window)| == window && Recent(history + [x], window) == Recent(history, window)[1..] + [x]
  {
  }

  /** Storing into a ring that is not full yet. */
  lemma RingGrows(values: seq<real>, count: nat, window: nat, history: seq<real>, x: real)
    requires count < window <= |values| && count == |history|
    requires RingHolds(values, count, count, Recent(history, window))
    ensures RingHolds(values[count := x], NextIndex(count, window), count + 1, Recent(history + [x], window))
  {
    hide Recent;
    RecentGrows(history, window, x);
    var v := values[count := x];
    assert values[..count] == history;
    assert v[..count + 1] == history + [x];
  }

  /** Storing into a full ring replaces the oldest input. */
  lemma RingTurns(values: seq<real>, index: nat, window: nat, history: seq<real>, x: real)
    requires index < window <= |values| && |history| >= window
    requires RingHolds(values, index, window, Recent(history, window))
    ensures RingHolds(values[index := x], NextIndex(index, window), window, Recent(history + [x], window))
  {
    hide Recent;
    RecentGrows(history, window, x);
    var v := values[index := x];
    var r := Recent(history, window);
    assert r[1..] == values[index + 1..window] + values[..index];
    assert v[..index + 1] == values[..index] + [x];
    assert v[index + 1..window] == values[index + 1..window];
    assert r[1..] + [x] == v[index + 1..window] + v[..index + 1];
  }

  lemma {:induction false} SumConcat(s: seq<real>, t: seq<real>)
    ensures Sum(s + t) == Sum(s) + Sum(t)
    decreases |t|
  {
    if t == [] {
      assert s + t == s;
    } else {
      var n := |t| - 1;
      SumConcat(s, t[..n]);
      assert (s + t)[..|s + t| - 1] == s + t[..n];
    }
  }

  /** Reading the ring in storage order changes neither the sum nor the elements. */
  lemma RingRotation(values: seq<real>, index: nat, count: nat, recent: seq<real>)
    requires RingHolds(values, index, count, recent)
    ensures Sum(values[..count]) == Sum(recent) && multiset(values[..count]) == multiset(recent)
    ensures |recent| == count
  {
    assert values[..count] == values[..index] + values[index..count];
    SumConcat(values[..index], values[index..count]);
    SumConcat(values[index..count], values[..index]);
  }

  class NumericFilter {
    const values: array<real>
    var kind: FilterType
    var window: nat
    var count: nat
    var index: nat
    var alpha: real
    var ema: real
    var initialized: bool
    ghost var history: seq<real>

    ghost predicate Valid()
      reads this, values
    {
      && values.Length == MAX_WINDOW && 1 <= window <= MAX_WINDOW && count <= window && index < window
      && (kind == Exponential ==>
            && initialized == (history != []) && (initialized ==> ema == Ema(history, alpha)))
      && (kind in {MovingAverage, MedianFilter, DigitalDebounce} ==>
            && (count < window ==> index == count == |history|)
            && (count == window ==> |history| >= window)
            && RingHolds(values[..], index, count, Recent(history, window)))
    }

    constructor ()
      ensures Valid() && history == [] && kind == NoFilter && fresh(values)
    {
      values := new real[MAX_WINDOW](_ => 0.0);
      kind, window, alpha := NoFilter, 1, 0.5;
      count, index, ema, initialized := 0, 0, 0.0, false;
      history := [];
    }

    /** Clamps the window to 1..9 and the weight to 0..1, and starts over. */
    method Configure(kind: FilterType, window: nat, emaAlpha: real)
      requires values.Length == MAX_WINDOW
      modifies this, values
      ensures Valid() && history == [] && this.kind == kind
      ensures this.window == if window < 1 then 1 else if window > 9 then 9 else window
      ensures this.alpha == if emaAlpha < 0.0 then 0.0 else if emaAlpha > 1.0 then 1.0 else emaAlpha
    {
      this.kind := kind;
      this.window := if window < 1 then 1 else if window > MAX_WINDOW then MAX_WINDOW else window;
      this.alpha := if emaAlpha < 0.0 then 0.0 else if emaAlpha > 1.0 then 1.0 else emaAlpha;
      count, index, ema, initialized := 0, 0, 0.0, false;
      for i := 0 to MAX_WINDOW
        modifies values
      {
        values[i] := 0.0;
      }
      history := [];
      assert RingHolds(values[..], 0, 0, []);
    }

    method Update(value: real) returns (output: real)
      requires Valid()
      modifies this, values
      ensures Valid() && history == old(history) + [value]
      ensures kind == old(kind) && window == old(window) && alpha == old(alpha)
      ensures FilterOutput(kind, window, alpha, history, output)
    {
      hide Ema, IsMedian, RingHolds, Sum, Blend, Recent;
      if kind == NoFilter {
        history := history + [value];
        return value;
      }
      if kind == Exponential {
        EmaStep(history, value, alpha);
        ema := if initialized then Blend(alpha, value, ema) else value;
        initialized := true;
        history := history + [value];
        return ema;
      }
      Push(value);
      RingRotation(values[..], index, count, Recent(history, window));
      output := Evaluate();
    }

    method Push(value: real)
      requires Valid() && kind in {MovingAverage, MedianFilter, DigitalDebounce}
      modifies this`index, this`count, this`history, values
      ensures Valid() && history == old(history) + [value] && count >= 1
    {
      hide RingHolds, Recent;
      if count < window {
        RingGrows(values[..], count, window, history, value);
      } else {
        RingTurns(values[..], index, window, history, value);
      }
      NextIndexIsMod(index, window);
      ghost var stored := values[..][index := value];
      values[index] := value;
      assert values[..] == stored;
      index := (index + 1) % window;
      if count < window {
        count := count + 1;
      }
      history := history + [value];
    }

    /** A copy of the stored inputs, and their sum. */
    method Gather() returns (work: array<real>, sum: real)
      requires values.Length == MAX_WINDOW && count <= MAX_WINDOW
      ensures fresh(work) && work.Length == MAX_WINDOW && work[..count] == values[..count] && sum == Sum(values[..count])
    {
      work := new real[MAX_WINDOW];
      sum := 0.0;
      for i := 0 to count
        invariant work[..i] == values[..i] && sum == Sum(values[..i])
      {
        assert values[..i + 1][..i] == values[..i];
        work[i] := values[i];
        sum := sum + values[i];
      }
    }

    /** Sum, or sort a copy, of the stored inputs. */
    method Evaluate() returns (output: real)
      requires values.Length == MAX_WINDOW && 1 <= count <= MAX_WINDOW && 1 <= window
      requires kind in {MovingAverage, MedianFilter, DigitalDebounce} && history != []
      requires var recent := Recent(history, window);
        Sum(values[..count]) == Sum(recent) && multiset(values[..count]) == multiset(recent) && |recent| == count
      ensures FilterOutput(kind, window, alpha, history, output)
    {
      hide Ema, Sorted, Recent;
      ghost var recent := Recent(history, window);
      var work, sum := Gather();
      if kind == MovingAverage {
        return sum / count as real;
      }
      InsertionSort(work, count);
      ghost var t := work[..count];
      assert IsSortingOf(t, recent);
      output := if count % 2 == 1 then work[count / 2] else (work[count / 2 - 1] + work[count / 2]) * 0.5;
      assert output == Middle(t);
    }
  }

  lemma EmaStep(history: seq<real>, value: real, alpha: real)
    ensures Ema(history + [value], alpha) ==
      if history == [] then value else Blend(alpha, value, Ema(history, alpha))
  {
    hide Blend;
    assert (history + [value])[..|history|] == history;
  }

  // ----- Debouncing -----

  /** All of the last n inputs differ from the given output. */
  predicate LastDiffer(inputs: seq<bool>, n: nat, output: bool) {
    |inputs| >= n && forall i :: |inputs| - n <= i < |inputs| ==> inputs[i] != output
  }

  /** The debounced output: it flips exactly when the last `required` inputs all
      differ from it. */
  function Debounced(initial: bool, required: nat, inputs: seq<bool>): bool {
    if inputs == [] then initial
    else
      var before := Debounced(initial, required, inputs[..|inputs| - 1]);
      if LastDiffer(inputs, required, before) then !before else before
  }

  /** The number of inputs at the end that differ from the given output. */
  function DifferingRun(inputs: seq<bool>, output: bool): (n: nat)
    ensures n <= |inputs|
  {
    if inputs == [] || inputs[|inputs| - 1] == output then 0 else DifferingRun(inputs[..|inputs| - 1], output) + 1
  }

  lemma {:induction false} RunMeasures(inputs: seq<bool>, n: nat, output: bool)
    ensures DifferingRun(inputs, output) >= n <==> LastDiffer(inputs, n, output)
    decreases |inputs|
  {
    if n > 0 && inputs != [] {
      var before := inputs[..|inputs| - 1];
      RunMeasures(before, n - 1, output);
      if inputs[|inputs| - 1] == output {
        assert !LastDiffer(inputs, n, output);
      } else {
        assert LastDiffer(inputs, n, output) <==> LastDiffer(before, n - 1, output) by {
          assert forall i :: 0 <= i < |before| ==> before[i] == inputs[i];
        }
      }
    }
  }

  /** One input, in terms of the run of differing inputs before it. */
  lemma DebounceStep(initial: bool, required: nat, inputs: seq<bool>, value: bool)
    requires required >= 1 && DifferingRun(inputs, Debounced(initial, required, inputs)) < required
    ensures var o := Debounced(initial, required, inputs);
      var run := if value == o then 0 else DifferingRun(inputs, o) + 1;
      var flips := run >= required;
      var longer := inputs + [value];
      && LastDiffer(longer, required, o) == flips
      && Debounced(initial, required, longer) == (if flips then !o else o)
      && DifferingRun(longer, Debounced(initial, required, longer)) == if flips then 0 else run
  {
    hide LastDiffer;
    var longer := inputs + [value];
    assert longer[..|longer| - 1] == inputs && longer[|longer| - 1] == value;
    RunMeasures(longer, required, Debounced(initial, required, inputs));
  }

  class DigitalDebounceFilter {
    var required: nat
    var count: nat
    var candidate: bool
    var output: bool
    ghost var initial: bool
    ghost var inputs: seq<bool>

    ghost predicate Valid()
      reads this
    {
      && required >= 1 && count < required
      && output == Debounced(initial, required, inputs)
      && count == DifferingRun(inputs, output)
      && (count > 0 ==> candidate != output)
    }

    constructor ()
      ensures Valid() && required == 2 && inputs == [] && !output
    {
      new;
      Configure(2);
      Reset(false);
    }

    /** A new threshold restarts the count and keeps the output. */
    method Configure(requiredSamples: nat)
      modifies this
      ensures Valid() && inputs == [] && output == old(output) && required == if requiredSamples < 1 then 1 else requiredSamples
    {
      required := if requiredSamples < 1 then 1 else requiredSamples;
      count := 0;
      initial, inputs := output, [];
    }

    method Reset(value: bool)
      requires required >= 1
      modifies this
      ensures Valid() && inputs == [] && output == value && required == old(required)
    {
      output, candidate, count := value, value, 0;
      initial, inputs := value, [];
    }

    method Update(value: bool) returns (r: bool)
      requires Valid()
      modifies this
      ensures Valid() && inputs == old(inputs) + [value] && required == old(required)
      ensures r == output
      ensures output != old(output) <==> LastDiffer(inputs, required, old(output))
    {
      hide Debounced, DifferingRun, LastDiffer;
      DebounceStep(initial, required, inputs, value);
      inputs := inputs + [value];
      if value == output {
        candidate := value;
        count := 0;
        return output;
      }
      if value != candidate {
        candidate := value;
        count := 1;
      } else if count < required {
        count := count + 1;
      }
      if count >= required {
        output := candidate;
        count := 0;
      }
      r := output;
    }
  }
}
