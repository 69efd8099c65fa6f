/** The double buffer and the FIFO assembler as objects that update in place,
    refining the operations on values. */
module WindowAssembly {
  import opened Words
  import opened DoubleBuffer

  class VibrationDoubleBuffer {
    const first: array<Sample>
    const second: array<Sample>
    var timing: seq<Timing>
    var state: seq<BufferState>
    var fillingIndex: int
    var counters: Counters

    ghost predicate Valid()
      reads this, first, second
    {
      && first != second && first.Length == WINDOW && second.Length == WINDOW
      && |timing| == 2 && |state| == 2 && View().Shaped()
    }

    /** The object's content as a value. */
    ghost function View(): Pair
      reads this, first, second
      requires |timing| == 2 && |state| == 2
    {
      Pair([Buffer(first[..], timing[0], state[0]), Buffer(second[..], timing[1], state[1])], fillingIndex, counters)
    }

    constructor ()
      ensures Valid() && fresh(first) && fresh(second)
      ensures View() == Initial()
    {
      first := new Sample[WINDOW](_ => Sample(0, 0, 0, 0, 0, 0));
      second := new Sample[WINDOW](_ => Sample(0, 0, 0, 0, 0, 0));
      timing := [NO_TIMING, NO_TIMING];
      state := [FILLING, FREE];
      fillingIndex := 0;
      counters := NO_COUNTERS;
      new;
      assert first[..] == EmptyBuffer().samples && second[..] == EmptyBuffer().samples;
    }

    method BeginFilling(i: nat)
      requires Valid() && i < 2
      modifies this
      ensures Valid() && View() == StartFilling(old(View()), i)
    {
      timing := timing[i := NO_TIMING];
      state := state[i := FILLING];
      fillingIndex := i;
    }

    method FreeIndex() returns (r: int)
      requires Valid()
      ensures r == FindFree(View())
    {
      for index := 0 to 2
        invariant forall i :: 0 <= i < index ==> state[i] != FREE
      {
        if state[index] == FREE {
          return index;
        }
      }
      r := -1;
    }

    /** Stores the sample in the filling buffer. */
    method Store(sample: Sample, us: u32)
      requires Valid() && fillingIndex >= 0
      modifies this`timing, this`counters, first, second
      ensures |timing| == 2 && |state| == 2 && fillingIndex == old(fillingIndex)
      ensures var p := old(View());
        View() == p.(buffers := p.buffers[p.filling := WithSample(p.buffers[p.filling], sample, us)],
                     counters := p.counters.(captured := Bump(p.counters.captured)))
    {
      var position := timing[fillingIndex].count;
      if position == 0 {
        timing := timing[fillingIndex := timing[fillingIndex].(startUs := us)];
      }
      if fillingIndex == 0 {
        first[position] := sample;
      } else {
        second[position] := sample;
      }
      timing := timing[fillingIndex := timing[fillingIndex].(count := position + 1, endUs := us)];
      counters := counters.(captured := Add32(counters.captured, 1));
    }

    method Append(sample: Sample, us: u32) returns (ok: bool)
      requires Valid()
      modifies this, first, second
      ensures Valid() && (View(), ok) == DoubleBuffer.Append(old(View()), sample, us)
    {
      hide EffectiveRate, CompleteWindow;
      AppendShaped(View(), sample, us);
      if fillingIndex < 0 {
        var free := FreeIndex();
        if free < 0 {
          counters := counters.(dropped := Add32(counters.dropped, 1));
          return false;
        }
        BeginFilling(free);
      }
      Store(sample, us);
      if timing[fillingIndex].count != WINDOW {
        return true;
      }
      FinishWindow();
      return true;
    }

    /** The filling buffer is full: publish it and move to the other one if it is free. */
    method FinishWindow()
      requires first != second && first.Length == WINDOW && second.Length == WINDOW
      requires |timing| == 2 && |state| == 2 && 0 <= fillingIndex <= 1
      modifies this
      ensures Valid() && View() == CompleteWindow(old(View()))
    {
      hide EffectiveRate;
      ghost var p := View();
      var t := timing[fillingIndex];
      timing := timing[fillingIndex := t.(rate := EffectiveRate(t.startUs, t.endUs))];
      state := state[fillingIndex := READY];
      counters := counters.(completed := Add32(counters.completed, 1), swaps := Add32(counters.swaps, 1));
      ghost var b := p.buffers[p.filling];
      ghost var done := b.(timing := timing[p.filling], state := READY);
      fillingIndex := -1;
      assert View().buffers == p.buffers[p.filling := done];
      var free := FreeIndex();
      if free >= 0 {
        BeginFilling(free);
      } else {
        counters := counters.(overruns := Add32(counters.overruns, 1));
      }
    }

    /** Hands out a ready buffer: its samples, its timing and its index. */
    method Acquire() returns (index: int, window: array<Sample>, windowTiming: Timing)
      requires Valid()
      modifies this`state
      ensures Valid() && (View(), index) == AcquireReady(old(View()))
      ensures index >= 0 ==>
        window[..] == old(View()).buffers[index].samples && windowTiming == old(View()).buffers[index].timing
    {
      window, windowTiming := first, NO_TIMING;
      for i := 0 to 2
        invariant state == old(state) && forall k :: 0 <= k < i ==> state[k] != READY
      {
        if state[i] == READY {
          ghost var p := View();
          state := state[i := PROCESSING];
          assert View().buffers == p.buffers[i := p.buffers[i].(state := PROCESSING)];
          return i, if i == 0 then first else second, timing[i];
        }
      }
      index := -1;
    }

    method ReleaseBuffer(index: nat) returns (ok: bool)
      requires Valid()
      modifies this
      ensures Valid() && (View(), ok) == Release(old(View()), index)
    {
      if index >= 2 || state[index] != PROCESSING {
        return false;
      }
      ghost var p := View();
      state := state[index := FREE];
      assert View().buffers == p.buffers[index := p.buffers[index].(state := FREE)];
      counters := counters.(processed := Add32(counters.processed, 1));
      if fillingIndex < 0 {
        BeginFilling(index);
      }
      return true;
    }
  }

  datatype AssemblyCounters = AssemblyCounters(accepted: u32, partial: u32, rejected: u32)

  class FifoWindowAssembler {
    const buffers: VibrationDoubleBuffer
    var counters: AssemblyCounters

    constructor (buffers: VibrationDoubleBuffer)
      ensures this.buffers == buffers && counters == AssemblyCounters(0, 0, 0)
    {
      this.buffers := buffers;
      counters := AssemblyCounters(0, 0, 0);
    }

    /** A batch of whole frames goes to the buffer frame by frame, up to the first
        one that is dropped; anything else is rejected whole. */
    method AppendBatch(words: seq<int>, firstUs: u32, intervalUs: u32) returns (ok: bool)
      requires buffers.Valid()
      modifies this, buffers, buffers.first, buffers.second
      ensures buffers.Valid()
      ensures !WellFormedBatch(words) ==>
        && !ok && buffers.View() == old(buffers.View())
        && counters == old(counters).(partial := Add32(old(counters).partial, 1))
      ensures WellFormedBatch(words) ==>
        var frames := Frames(words, 0, firstUs, intervalUs);
        && buffers.View() == AppendFrames(old(buffers.View()), frames).0
        && (ok <==> AppendFrames(old(buffers.View()), frames).1 == |frames|)
        && counters.accepted == (old(counters).accepted + AppendFrames(old(buffers.View()), frames).1) % WORD
        && counters.rejected == (old(counters).rejected + if ok then 0 else 1) % WORD
    {
      hide DoubleBuffer.Append, TimeStamp, AppendFrames, Frames, ParseFrame, Add32;
      if |words| == 0 || |words| % WORDS_PER_FRAME != 0 {
        counters := counters.(partial := Add32(counters.partial, 1));
        return false;
      }
      var frameCount := |words| / WORDS_PER_FRAME;
      ghost var start, accepted := buffers.View(), counters.accepted;
      ghost var frames := Frames(words, 0, firstUs, intervalUs);
      FrameCount(words, 0, firstUs, intervalUs);
      assert frames[0..] == frames;
      for index := 0 to frameCount
        invariant buffers.Valid()
        invariant AppendFrames(start, frames).0 == AppendFrames(buffers.View(), frames[index..]).0
        invariant AppendFrames(start, frames).1 == index + AppendFrames(buffers.View(), frames[index..]).1
        invariant counters == old(counters).(accepted := (accepted + index) % WORD)
      {
        var frame := ParseFrame(words[index * WORDS_PER_FRAME..index * WORDS_PER_FRAME + WORDS_PER_FRAME]);
        var timestamp := TimeStamp(firstUs, index, intervalUs);
        FrameAt(words, 0, firstUs, intervalUs, index);
        AppendFramesStep(buffers.View(), frames, index);
        var appended := buffers.Append(frame, timestamp);
        if !appended {
          CountOne(counters.rejected, 0);
          counters := counters.(rejected := Add32(counters.rejected, 1));
          return false;
        }
        CountOne(accepted, index);
        counters := counters.(accepted := Add32(counters.accepted, 1));
      }
      AppendNoFrames(buffers.View(), frames);
      return true;
    }
  }

  lemma CountOne(n: u32, k: nat)
    ensures Add32((n + k) % WORD, 1) == (n + k + 1) % WORD
  {
  }

  lemma AppendFramesStep(p: Pair, frames: seq<(Sample, u32)>, i: nat)
    requires p.Shaped() && i < |frames|
    ensures var next := DoubleBuffer.Append(p, frames[i].0, frames[i].1);
      && next.0.Shaped()
      && AppendFrames(p, frames[i..]) ==
           if next.1 then (AppendFrames(next.0, frames[i + 1..]).0, AppendFrames(next.0, frames[i + 1..]).1 + 1)
           else (next.0, 0)
  {
    hide DoubleBuffer.Append;
    AppendShaped(p, frames[i].0, frames[i].1);
    assert frames[i..][0] == frames[i] && frames[i..][1..] == frames[i + 1..];
  }

  lemma AppendNoFrames(p: Pair, frames: seq<(Sample, u32)>)
    requires p.Shaped()
    ensures AppendFrames(p, frames[|frames|..]) == (p, 0)
  {
  }

  lemma {:induction false} FrameAt(words: seq<int>, i: nat, firstUs: u32, intervalUs: u32, index: nat)
    requires |words| % WORDS_PER_FRAME == 0 && index < |words| / WORDS_PER_FRAME
    ensures index < |Frames(words, i, firstUs, intervalUs)|
    ensures Frames(words, i, firstUs, intervalUs)[index] ==
      (ParseFrame(words[index * WORDS_PER_FRAME..index * WORDS_PER_FRAME + WORDS_PER_FRAME]),
       TimeStamp(firstUs, i + index, intervalUs))
    decreases index
  {
    hide TimeStamp, ParseFrame;
    FrameCount(words, i, firstUs, intervalUs);
    if index == 0 {
      assert words[0..WORDS_PER_FRAME] == words[..WORDS_PER_FRAME];
    } else {
      FrameAt(words[WORDS_PER_FRAME..], i + 1, firstUs, intervalUs, index - 1);
      SliceOfRest(words, (index - 1) * WORDS_PER_FRAME);
    }
  }

  lemma SliceOfRest(words: seq<int>, k: nat)
    requires k + 12 <= |words|
    ensures words[6..][k..k + 6] == words[k + 6..k + 12]
  {
  }

  lemma {:induction false} FrameCount(words: seq<int>, i: nat, firstUs: u32, intervalUs: u32)
    requires |words| % WORDS_PER_FRAME == 0
    ensures |Frames(words, i, firstUs, intervalUs)| == |words| / WORDS_PER_FRAME
    decreases |words|
  {
    if |words| >= WORDS_PER_FRAME {
      FrameCount(words[WORDS_PER_FRAME..], i + 1, firstUs, intervalUs);
    }
  }
}
