/** The bounded telemetry queue that sheds its lowest priority first. */
module TelemetryBuffer {
  import opened Words

  const CAPACITY: nat := 24

  /** A record: its priority, the delayed flag, and everything else as its content. */
  datatype Record = Record(priority: byte, content: int, delayed: bool)

  // ----- The queue as a value -----

  /** The first position of the lowest priority. */
  function Lowest(s: seq<Record>): (k: nat)
    requires s != []
    ensures k < |s|
    ensures forall i :: 0 <= i < |s| ==> s[k].priority <= s[i].priority
    ensures forall i :: 0 <= i < k ==> s[k].priority < s[i].priority
  {
    if |s| == 1 then 0
    else
      var k := Lowest(s[..|s| - 1]);
      if s[|s| - 1].priority < s[k].priority then |s| - 1 else k
  }

  function Without(s: seq<Record>, k: nat): (r: seq<Record>)
    requires k < |s|
    ensures |r| == |s| - 1
  {
    s[..k] + s[k + 1..]
  }

  datatype Pushed = Pushed(queue: seq<Record>, accepted: bool, drops: bool)

  /** Room: append. Full: replace the lowest priority if the new one exceeds it. */
  function Push(s: seq<Record>, r: Record): Pushed
    requires |s| <= CAPACITY
  {
    if |s| < CAPACITY then Pushed(s + [r], true, false)
    else if r.priority <= s[Lowest(s)].priority then Pushed(s, false, true)
    else Pushed(Without(s, Lowest(s)) + [r], true, true)
  }

  class Buffer {
    const records: array<Record>
    var count: nat
    var droppedCount: u32

    ghost predicate Valid()
      reads this
    {
      records.Length == CAPACITY && count <= CAPACITY
    }

    ghost function Contents(): seq<Record>
      reads this, records
      requires Valid()
    {
      records[..count]
    }

    constructor ()
      ensures Valid() && Contents() == [] && droppedCount == 0 && fresh(records)
    {
      records := new Record[CAPACITY](_ => Record(0, 0, false));
      count, droppedCount := 0, 0;
    }

    method LowestIndex() returns (lowest: nat)
      requires Valid() && count > 0
      ensures lowest == Lowest(Contents())
    {
      lowest := 0;
      for i := 1 to count
        invariant lowest == Lowest(records[..i])
      {
        assert records[..i + 1][..i] == records[..i];
        if records[i].priority < records[lowest].priority {
          lowest := i;
        }
      }
    }

    /** Closes the gap at k by moving the later records down. */
    method ShiftDown(k: nat)
      requires Valid() && k < count
      modifies records
      ensures records[..count - 1] == Without(old(records[..count]), k)
    {
      for i := k to count - 1
        invariant forall j :: 0 <= j < k ==> records[j] == old(records[j])
        invariant forall j :: k <= j < i ==> records[j] == old(records[j + 1])
        invariant forall j :: i <= j < count ==> records[j] == old(records[j])
      {
        records[i] := records[i + 1];
      }
      assert forall j :: 0 <= j < count - 1 ==> records[..count - 1][j] == Without(old(records[..count]), k)[j];
    }

    method PushRecord(r: Record) returns (accepted: bool)
      requires Valid()
      modifies this, records
      ensures Valid()
      ensures var p := Push(old(Contents()), r);
        && Contents() == p.queue && accepted == p.accepted
        && droppedCount == if p.drops then Add32(old(droppedCount), 1) else old(droppedCount)
    {
      ghost var s := Contents();
      if count < CAPACITY {
        records[count] := r;
        count := count + 1;
        assert Contents() == s + [r];
        return true;
      }
      var lowest := LowestIndex();
      if r.priority <= records[lowest].priority {
        droppedCount := Add32(droppedCount, 1);
        return false;
      }
      ShiftDown(lowest);
      records[count - 1] := r;
      assert records[..count - 1] == Without(s, lowest);
      assert Contents() == Without(s, lowest) + [r];
      droppedCount := Add32(droppedCount, 1);
      return true;
    }

    /** The oldest record, marked as delayed. */
    method Pop() returns (ok: bool, r: Record)
      requires Valid()
      modifies this, records
      ensures Valid() && droppedCount == old(droppedCount)
      ensures old(Contents()) == [] ==> !ok && Contents() == []
      ensures old(Contents()) != [] ==>
        ok && r == old(Contents())[0].(delayed := true) && Contents() == old(Contents())[1..]
    {
      r := Record(0, 0, false);
      if count == 0 {
        return false, r;
      }
      r := records[0].(delayed := true);
      ShiftDown(0);
      count := count - 1;
      return true, r;
    }
  }

  // ----- Whole runs -----

  datatype Event = PushEvent(record: Record) | PopEvent

  /** What a run has produced: the queue, the records popped (as stored, before
      marking), all records pushed, and those lost. */
  datatype History = History(queue: seq<Record>, popped: seq<Record>, pushed: seq<Record>, lost: multiset<Record>)

  ghost function Step(h: History, e: Event): History
    requires |h.queue| <= CAPACITY
  {
    match e
    case PushEvent(r) =>
      var p := Push(h.queue, r);
      var gone := if !p.drops then multiset{} else if p.accepted then multiset{h.queue[Lowest(h.queue)]} else multiset{r};
      h.(queue := p.queue, pushed := h.pushed + [r], lost := h.lost + gone)
    case PopEvent =>
      if h.queue == [] then h else h.(queue := h.queue[1..], popped := h.popped + [h.queue[0]])
  }

  ghost function Run(events: seq<Event>): (h: History)
    ensures |h.queue| <= CAPACITY
    decreases |events|
  {
    if events == [] then History([], [], [], multiset{})
    else Step(Run(events[..|events| - 1]), events[|events| - 1])
  }

  /** Every record pushed was popped, is held, or was lost: as multisets. */
  lemma {:induction false} Conservation(events: seq<Event>)
    ensures var h := Run(events);
      && multiset(h.pushed) == multiset(h.popped) + multiset(h.queue) + h.lost
      && |h.pushed| == |h.popped| + |h.queue| + |h.lost|
    decreases |events|
  {
    var h := Run(events);
    if events != [] {
      var before := Run(events[..|events| - 1]);
      Conservation(events[..|events| - 1]);
      StepConserves(before, events[|events| - 1]);
    }
    assert |multiset(h.pushed)| == |h.pushed| && |multiset(h.popped)| == |h.popped| && |multiset(h.queue)| == |h.queue|;
  }

  lemma StepConserves(h: History, e: Event)
    requires |h.queue| <= CAPACITY
    requires multiset(h.pushed) == multiset(h.popped) + multiset(h.queue) + h.lost
    ensures var g := Step(h, e); multiset(g.pushed) == multiset(g.popped) + multiset(g.queue) + g.lost
  {
    match e
    case PushEvent(r) => PushConserves(h, r);
    case PopEvent =>
      if h.queue != [] {
        assert h.queue == [h.queue[0]] + h.queue[1..];
      }
  }

  lemma PushConserves(h: History, r: Record)
    requires |h.queue| <= CAPACITY
    requires multiset(h.pushed) == multiset(h.popped) + multiset(h.queue) + h.lost
    ensures var g := Step(h, PushEvent(r)); multiset(g.pushed) == multiset(g.popped) + multiset(g.queue) + g.lost
  {
    hide Lowest, Without;
    if |h.queue| == CAPACITY {
      WithoutMultiset(h.queue, Lowest(h.queue));
    }
  }

  lemma WithoutMultiset(s: seq<Record>, k: nat)
    requires k < |s|
    ensures multiset(s) == multiset(Without(s, k)) + multiset{s[k]}
  {
    assert s == s[..k] + [s[k]] + s[k + 1..];
  }

  /** positions lists strictly increasing places of s in t. */
  ghost predicate Embeds(s: seq<Record>, t: seq<Record>, positions: seq<nat>) {
    && |positions| == |s|
    && (forall i :: 0 <= i < |s| ==> positions[i] < |t| && t[positions[i]] == s[i])
    && (forall i, j :: 0 <= i < j < |s| ==> positions[i] < positions[j])
  }

  ghost predicate IsSubsequence(s: seq<Record>, t: seq<Record>) {
    exists positions :: Embeds(s, t, positions)
  }

  lemma SubsequenceAppend(s: seq<Record>, t: seq<Record>, r: Record)
    requires IsSubsequence(s, t)
    ensures IsSubsequence(s + [r], t + [r]) && IsSubsequence(s, t + [r])
  {
    var p: seq<nat> :| Embeds(s, t, p);
    assert Embeds(s, t + [r], p);
    assert Embeds(s + [r], t + [r], p + [|t|]);
  }

  lemma SubsequenceRemove(s: seq<Record>, t: seq<Record>, k: nat)
    requires IsSubsequence(s, t) && k < |s|
    ensures IsSubsequence(s[..k] + s[k + 1..], t)
  {
    var p: seq<nat> :| Embeds(s, t, p);
    assert Embeds(s[..k] + s[k + 1..], t, p[..k] + p[k + 1..]);
  }

  /** Popped records followed by the held ones are a subsequence of the pushes:
      nothing is ever reordered or duplicated. */
  lemma {:induction false} OrderKept(events: seq<Event>)
    ensures var h := Run(events); IsSubsequence(h.popped + h.queue, h.pushed)
    decreases |events|
  {
    if events == [] {
      var h := Run(events);
      assert Embeds(h.popped + h.queue, h.pushed, []);
    } else {
      OrderKept(events[..|events| - 1]);
      StepKeepsOrder(Run(events[..|events| - 1]), events[|events| - 1]);
    }
  }

  lemma StepKeepsOrder(h: History, e: Event)
    requires |h.queue| <= CAPACITY && IsSubsequence(h.popped + h.queue, h.pushed)
    ensures var g := Step(h, e); IsSubsequence(g.popped + g.queue, g.pushed)
  {
    hide IsSubsequence;
    var s := h.popped + h.queue;
    match e
    case PushEvent(r) =>
      SubsequenceAppend(s, h.pushed, r);
      if |h.queue| < CAPACITY {
        assert h.popped + (h.queue + [r]) == s + [r];
      } else if Push(h.queue, r).accepted {
        var k := |h.popped| + Lowest(h.queue);
        SubsequenceRemove(s, h.pushed, k);
        var shorter := s[..k] + s[k + 1..];
        assert shorter == h.popped + Without(h.queue, Lowest(h.queue));
        SubsequenceAppend(shorter, h.pushed, r);
        assert h.popped + (Without(h.queue, Lowest(h.queue)) + [r]) == shorter + [r];
      }
    case PopEvent =>
      if h.queue != [] {
        assert (h.popped + [h.queue[0]]) + h.queue[1..] == s;
      }
  }

  /** A full queue takes a record exactly when it exceeds some priority held, and then
      gives up the oldest record of the lowest priority; an equal or lower priority is
      refused and leaves the queue as it is. */
  lemma FullPush(s: seq<Record>, r: Record)
    requires |s| == 24
    ensures Push(s, r).accepted <==> exists i :: 0 <= i < |s| && s[i].priority < r.priority
    ensures !Push(s, r).accepted ==> Push(s, r).queue == s
    ensures Push(s, r).accepted ==>
      exists k :: 0 <= k < |s| && Push(s, r).queue == s[..k] + s[k + 1..] + [r]
        && (forall i :: 0 <= i < |s| ==> s[k].priority <= s[i].priority)
        && (forall i :: 0 <= i < k ==> s[k].priority < s[i].priority)
    ensures Push(s, r).drops
  {
    var k := Lowest(s);
    if Push(s, r).accepted {
      assert Push(s, r).queue == s[..k] + s[k + 1..] + [r];
    }
  }

  /** A record is lost only when every record retained has at least its priority. */
  lemma LossIsLowest(s: seq<Record>, r: Record)
    requires |s| <= CAPACITY && Push(s, r).drops
    ensures var p := Push(s, r);
      var gone := if p.accepted then s[Lowest(s)] else r;
      |p.queue| == CAPACITY && forall i :: 0 <= i < |p.queue| ==> gone.priority <= p.queue[i].priority
  {
  }

  // ----- Without pops, the queue keeps the largest priorities -----

  /** kept are the n largest of all: the rest never exceeds them. */
  ghost predicate LargestKept(all: multiset<byte>, kept: multiset<byte>, rest: multiset<byte>, n: nat) {
    && all == kept + rest
    && (forall k, r :: k in kept && r in rest ==> r <= k)
    && |kept| == if |all| <= n then |all| else n
  }

  ghost function Priorities(s: seq<Record>): seq<byte> {
    seq(|s|, i requires 0 <= i < |s| => s[i].priority)
  }

  ghost function PushAll(records: seq<Record>): (s: seq<Record>)
    ensures |s| <= CAPACITY
    decreases |records|
  {
    if records == [] then [] else Push(PushAll(records[..|records| - 1]), records[|records| - 1]).queue
  }

  lemma PrioritiesAppend(s: seq<Record>, r: Record)
    ensures Priorities(s + [r]) == Priorities(s) + [r.priority]
  {
  }

  lemma PrioritiesWithout(s: seq<Record>, k: nat)
    requires k < |s|
    ensures multiset(Priorities(s)) == multiset(Priorities(Without(s, k))) + multiset{s[k].priority}
  {
    var p := Priorities(s);
    assert p == p[..k] + [p[k]] + p[k + 1..];
    assert Priorities(Without(s, k)) == p[..k] + p[k + 1..];
  }

  lemma LowestPriority(s: seq<Record>)
    requires s != []
    ensures forall k :: k in multiset(Priorities(s)) ==> s[Lowest(s)].priority <= k
    ensures s[Lowest(s)].priority in multiset(Priorities(s))
  {
    var p := Priorities(s);
    assert p[Lowest(s)] == s[Lowest(s)].priority;
    forall k | k in multiset(p)
      ensures s[Lowest(s)].priority <= k
    {
      var i :| 0 <= i < |p| && p[i] == k;
    }
  }

  /** After any pushes without pops, the retained priorities are exactly the 24
      largest ones pushed, as a multiset. */
  lemma {:induction false} RetainsLargest(records: seq<Record>) returns (rest: multiset<byte>)
    ensures LargestKept(multiset(Priorities(records)), multiset(Priorities(PushAll(records))), rest, CAPACITY)
    decreases |records|
  {
    if records == [] {
      rest := multiset{};
      assert Priorities(records) == [] && Priorities(PushAll(records)) == [];
    } else {
      var earlier, r := records[..|records| - 1], records[|records| - 1];
      var before := RetainsLargest(earlier);
      assert records == earlier + [r];
      PrioritiesAppend(earlier, r);
      rest := PushKeepsLargest(multiset(Priorities(earlier)), PushAll(earlier), before, r);
    }
  }

  lemma PushKeepsLargest(all: multiset<byte>, s: seq<Record>, rest: multiset<byte>, r: Record) returns (rest': multiset<byte>)
    requires |s| <= CAPACITY && LargestKept(all, multiset(Priorities(s)), rest, CAPACITY)
    ensures LargestKept(all + multiset{r.priority}, multiset(Priorities(Push(s, r).queue)), rest', CAPACITY)
  {
    hide Lowest, Priorities;
    var kept := multiset(Priorities(s));
    KeptSize(s);
    if |s| < CAPACITY {
      PrioritiesAppend(s, r);
      rest' := rest;
      NothingLost(all, kept, rest, s);
      assert multiset(Priorities(s + [r])) == kept + multiset{r.priority};
    } else {
      var low := s[Lowest(s)].priority;
      LowestPriority(s);
      if r.priority <= low {
        rest' := rest + multiset{r.priority};
      } else {
        rest' := rest + multiset{low};
        PrioritiesWithout(s, Lowest(s));
        PrioritiesAppend(Without(s, Lowest(s)), r);
        var fewer := multiset(Priorities(Without(s, Lowest(s))));
        assert multiset(Priorities(Push(s, r).queue)) == fewer + multiset{r.priority};
        assert kept == fewer + multiset{low};
        assert forall k :: k in fewer ==> k in kept;
      }
    }
  }

  lemma KeptSize(s: seq<Record>)
    ensures |multiset(Priorities(s))| == |s|
  {
    assert |Priorities(s)| == |s|;
  }

  lemma NothingLost(all: multiset<byte>, kept: multiset<byte>, rest: multiset<byte>, s: seq<Record>)
    requires LargestKept(all, kept, rest, CAPACITY) && |kept| == |s| < CAPACITY
    ensures rest == multiset{}
  {
    assert |all| == |kept| + |rest|;
  }

  /** The n largest of a multiset are determined by it. */
  lemma LargestUnique(all: multiset<byte>, kept: multiset<byte>, rest: multiset<byte>,
                      kept': multiset<byte>, rest': multiset<byte>, n: nat)
    requires LargestKept(all, kept, rest, n) && LargestKept(all, kept', rest', n)
    ensures kept == kept'
  {
    if kept != kept' {
      var k := ExtraElement(kept, kept');
      assert (kept + rest)[k] == (kept' + rest')[k];
      assert k in rest';
      var k' := ExtraElement(kept', kept);
      SameTotal(all, kept, rest, kept', rest', k');
    }
  }

  lemma SameTotal(all: multiset<byte>, kept: multiset<byte>, rest: multiset<byte>,
                  kept': multiset<byte>, rest': multiset<byte>, k: byte)
    requires all == kept + rest && all == kept' + rest'
    ensures kept[k] + rest[k] == kept'[k] + rest'[k]
  {
    assert (kept + rest)[k] == (kept' + rest')[k];
  }

  lemma SubmultisetEqual(p: multiset<byte>, q: multiset<byte>)
    requires |p| == |q| && p <= q
    ensures p == q
  {
    assert q == p + (q - p);
    assert |q| == |p| + |q - p|;
  }

  /** Multisets of equal size that differ each have an element more often than the other. */
  lemma ExtraElement(p: multiset<byte>, q: multiset<byte>) returns (x: byte)
    requires |p| == |q| && p != q
    ensures p[x] > q[x]
  {
    if p <= q {
      SubmultisetEqual(p, q);
    }
    x :| p[x] > q[x];
  }
}
