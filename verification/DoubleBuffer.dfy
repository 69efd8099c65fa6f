/** The ping-pong window buffer between acquisition and processing, and the FIFO
    batches that feed it. */
module DoubleBuffer {
  import opened Words

  const WINDOW: nat := 256
  const WORDS_PER_FRAME: nat := 6

  datatype Sample = Sample(gyroX: int, gyroY: int, gyroZ: int, accelX: int, accelY: int, accelZ: int)

  datatype BufferState = FREE | FILLING | READY | PROCESSING

  datatype Timing = Timing(startUs: u32, endUs: u32, count: nat, rate: real)

  const NO_TIMING := Timing(0, 0, 0, 0.0)

  datatype Buffer = Buffer(samples: seq<Sample>, timing: Timing, state: BufferState)

  datatype Counters = Counters(
    captured: u32, dropped: u32, completed: u32, processed: u32, swaps: u32, overruns: u32)

  const NO_COUNTERS := Counters(0, 0, 0, 0, 0, 0)

  /** The two buffers, the index being filled (-1 for none) and the counters. */
  datatype Pair = Pair(buffers: seq<Buffer>, filling: int, counters: Counters) {
    predicate Shaped() {
      && |buffers| == 2 && -1 <= filling <= 1
      && |buffers[0].samples| == WINDOW && |buffers[1].samples| == WINDOW
      && (filling >= 0 ==> buffers[filling].timing.count < WINDOW)
    }
  }

  function Bump(n: u32): u32 {
    Add32(n, 1)
  }

  // ----- Operations on values -----

  function StartFilling(p: Pair, i: nat): Pair
    requires p.Shaped() && i < 2
  {
    p.(buffers := p.buffers[i := p.buffers[i].(timing := NO_TIMING, state := FILLING)], filling := i)
  }

  function FindFree(p: Pair): (r: int)
    requires p.Shaped()
    ensures -1 <= r < 2 && (r >= 0 ==> p.buffers[r].state == FREE)
    ensures r < 0 <==> p.buffers[0].state != FREE && p.buffers[1].state != FREE
  {
    if p.buffers[0].state == FREE then 0 else if p.buffers[1].state == FREE then 1 else -1
  }

  function EffectiveRate(startUs: u32, endUs: u32): real {
    var elapsed := Sub32(endUs, startUs);
    if elapsed > 0 then 255.0 * 1000000.0 / elapsed as real else 0.0
  }

  /** On the wrapping clock the rate is 255 intervals over the unwrapped time
      between the first and the last frame, while that stays below the clock's period. */
  lemma RateOfElapsed(start: nat, elapsed: nat)
    requires elapsed < WORD
    ensures EffectiveRate(start % WORD, (start + elapsed) % WORD) * elapsed as real ==
      if elapsed == 0 then 0.0 else 255000000.0
    ensures EffectiveRate(start % WORD, (start + elapsed) % WORD) == 0.0 <==> elapsed == 0
  {
    ModDifference(start + elapsed, start);
    RateOf(start % WORD, (start + elapsed) % WORD, elapsed);
  }

  lemma RateOf(startUs: u32, endUs: u32, elapsed: nat)
    requires Sub32(endUs, startUs) == elapsed
    ensures EffectiveRate(startUs, endUs) * elapsed as real == if elapsed == 0 then 0.0 else 255000000.0
    ensures EffectiveRate(startUs, endUs) == 0.0 <==> elapsed == 0
  {
    hide Sub32;
    if elapsed > 0 {
      var e := elapsed as real;
      assert 255000000.0 / e * e == 255000000.0;
    }
  }

  /** The filling buffer with one more sample. */
  function WithSample(b: Buffer, sample: Sample, us: u32): Buffer
    requires b.timing.count < |b.samples|
  {
    var n := b.timing.count;
    b.(samples := b.samples[n := sample],
       timing := b.timing.(startUs := if n == 0 then us else b.timing.startUs, endUs := us, count := n + 1))
  }

  /** Hands a full filling buffer over and starts on the other one if it is free. */
  function CompleteWindow(p: Pair): Pair
    requires |p.buffers| == 2 && 0 <= p.filling <= 1
    requires |p.buffers[0].samples| == WINDOW && |p.buffers[1].samples| == WINDOW
  {
    var b := p.buffers[p.filling];
    var done := b.(timing := b.timing.(rate := EffectiveRate(b.timing.startUs, b.timing.endUs)), state := READY);
    var counters := p.counters.(completed := Bump(p.counters.completed), swaps := Bump(p.counters.swaps));
    var q := Pair(p.buffers[p.filling := done], -1, counters);
    if FindFree(q) >= 0 then StartFilling(q, FindFree(q))
    else q.(counters := counters.(overruns := Bump(counters.overruns)))
  }

  function Append(p: Pair, sample: Sample, us: u32): (r: (Pair, bool))
    requires p.Shaped()
  {
    if p.filling < 0 && FindFree(p) < 0 then
      (p.(counters := p.counters.(dropped := Bump(p.counters.dropped))), false)
    else
      var s := if p.filling < 0 then StartFilling(p, FindFree(p)) else p;
      var b := WithSample(s.buffers[s.filling], sample, us);
      var q := s.(buffers := s.buffers[s.filling := b], counters := s.counters.(captured := Bump(s.counters.captured)));
      (if b.timing.count != WINDOW then q else CompleteWindow(q), true)
  }

  /** The first ready buffer by index, now being processed. */
  function AcquireReady(p: Pair): (r: (Pair, int))
    requires p.Shaped()
  {
    if p.buffers[0].state == READY then (p.(buffers := p.buffers[0 := p.buffers[0].(state := PROCESSING)]), 0)
    else if p.buffers[1].state == READY then (p.(buffers := p.buffers[1 := p.buffers[1].(state := PROCESSING)]), 1)
    else (p, -1)
  }

  function Release(p: Pair, i: nat): (r: (Pair, bool))
    requires p.Shaped()
  {
    if i >= 2 || p.buffers[i].state != PROCESSING then (p, false)
    else
      var q := p.(buffers := p.buffers[i := p.buffers[i].(state := FREE)],
                  counters := p.counters.(processed := Bump(p.counters.processed)));
      (if q.filling < 0 then StartFilling(q, i) else q, true)
  }

  function EmptyBuffer(): (b: Buffer)
    ensures |b.samples| == WINDOW && b.timing == NO_TIMING && b.state == FREE
  {
    Buffer(seq(WINDOW, _ => Sample(0, 0, 0, 0, 0, 0)), NO_TIMING, FREE)
  }

  function Initial(): Pair {
    StartFilling(Pair([EmptyBuffer(), EmptyBuffer()], -1, NO_COUNTERS), 0)
  }

  // ----- FIFO batches -----

  /** One frame of six words: gyro first, then acceleration. */
  function ParseFrame(words: seq<int>): Sample
    requires |words| == WORDS_PER_FRAME
  {
    Sample(words[0], words[1], words[2], words[3], words[4], words[5])
  }

  /** A frame keeps its words in order, the three of the gyroscope first. */
  lemma ParseKeepsWords(words: seq<int>)
    requires |words| == 6
    ensures var s := ParseFrame(words); [s.gyroX, s.gyroY, s.gyroZ, s.accelX, s.accelY, s.accelZ] == words
  {
  }

  /** Frames are stamped at a fixed interval on the wrapping microsecond clock. */
  function TimeStamp(firstUs: u32, i: nat, intervalUs: u32): u32 {
    (firstUs + i * intervalUs) % WORD
  }

  /** The first frame has the given stamp, and each next one an interval more. */
  lemma StampsAdvance(firstUs: u32, i: nat, intervalUs: u32)
    ensures TimeStamp(firstUs, 0, intervalUs) == firstUs
    ensures TimeStamp(firstUs, i + 1, intervalUs) == Add32(TimeStamp(firstUs, i, intervalUs), intervalUs)
  {
    var t := firstUs + i * intervalUs;
    assert firstUs + (i + 1) * intervalUs == t + intervalUs;
    AddWraps(t, intervalUs);
  }

  lemma AddWraps(t: nat, d: u32)
    ensures (t + d) % WORD == Add32(t % WORD, d)
  {
    ModShift(t % WORD + d, t / WORD);
  }

  /** The time-stamped frames of a batch, from frame i on. */
  function Frames(words: seq<int>, i: nat, firstUs: u32, intervalUs: u32): seq<(Sample, u32)>
    decreases |words|
  {
    if |words| < WORDS_PER_FRAME then []
    else [(ParseFrame(words[..WORDS_PER_FRAME]), TimeStamp(firstUs, i, intervalUs))]
         + Frames(words[WORDS_PER_FRAME..], i + 1, firstUs, intervalUs)
  }

  predicate WellFormedBatch(words: seq<int>) {
    |words| != 0 && |words| % WORDS_PER_FRAME == 0
  }

  /** Frames are appended in order until one is dropped; the rest is abandoned. */
  function AppendFrames(p: Pair, frames: seq<(Sample, u32)>): (r: (Pair, nat))
    requires p.Shaped()
    ensures r.0.Shaped() && r.1 <= |frames|
    decreases |frames|
  {
    if frames == [] then (p, 0)
    else
      AppendShaped(p, frames[0].0, frames[0].1);
      var step := Append(p, frames[0].0, frames[0].1);
      if !step.1 then (step.0, 0)
      else
        var rest := AppendFrames(step.0, frames[1..]);
        (rest.0, rest.1 + 1)
  }

  lemma AppendShaped(p: Pair, sample: Sample, us: u32)
    requires p.Shaped()
    ensures Append(p, sample, us).0.Shaped()
  {
  }

  // ----- The offered stream -----

  /** What happened so far, seen from outside: every frame offered, where in that
      stream each buffer's window starts, the starts of all completed windows and
      of all windows handed out, and exact counts. A stall begins when a window
      completes with no free buffer, and a release ends it: both are kept as the
      position in the stream at which they happen. */
  datatype Track = Track(
    stream: seq<(Sample, u32)>, start: seq<nat>, completed: seq<nat>, handed: seq<nat>,
    captured: nat, dropped: nat, released: nat, stalls: seq<nat>, resumptions: seq<nat>)

  const NO_TRACK := Track([], [0, 0], [], [], 0, 0, 0, [], [])

  ghost function TrackAppend(p: Pair, t: Track, sample: Sample, us: u32): Track
    requires p.Shaped() && |t.start| == 2
  {
    var stream := t.stream + [(sample, us)];
    if !Append(p, sample, us).1 then t.(stream := stream, dropped := t.dropped + 1)
    else
      var f := if p.filling < 0 then FindFree(p) else p.filling;
      var start := if p.filling < 0 then t.start[f := |t.stream|] else t.start;
      var full := (if p.filling < 0 then 0 else p.buffers[f].timing.count) + 1 == WINDOW;
      var next := Append(p, sample, us).0.filling;
      t.(stream := stream, captured := t.captured + 1,
         start := if full && next >= 0 then start[next := |stream|] else start,
         completed := if full then t.completed + [start[f]] else t.completed,
         stalls := if full && next < 0 then t.stalls + [|stream|] else t.stalls)
  }

  ghost function TrackAcquire(p: Pair, t: Track): Track
    requires p.Shaped() && |t.start| == 2
  {
    var i := AcquireReady(p).1;
    if i < 0 then t else t.(handed := t.handed + [t.start[i]])
  }

  ghost function TrackRelease(p: Pair, t: Track, i: nat): Track
    requires p.Shaped() && |t.start| == 2
  {
    if !Release(p, i).1 then t
    else t.(released := t.released + 1,
            start := if p.filling < 0 then t.start[i := |t.stream|] else t.start,
            resumptions := if p.filling < 0 then t.resumptions + [|t.stream|] else t.resumptions)
  }

  /** The whole batch counts as offered; only its accepted frames were captured. */
  ghost function TrackFrames(p: Pair, t: Track, frames: seq<(Sample, u32)>): (r: Track)
    requires p.Shaped() && |t.start| == 2
    ensures |r.start| == 2
    decreases |frames|
  {
    if frames == [] then t
    else
      AppendShaped(p, frames[0].0, frames[0].1);
      var step := Append(p, frames[0].0, frames[0].1);
      var t' := TrackAppend(p, t, frames[0].0, frames[0].1);
      if !step.1 then t'.(stream := t'.stream + frames[1..])
      else TrackFrames(step.0, t', frames[1..])
  }

  // ----- The invariant -----

  /** The first n samples of the buffer are the frames of the stream from start on. */
  ghost predicate Matches(b: Buffer, stream: seq<(Sample, u32)>, start: nat, n: nat) {
    && start + n <= |stream| && n <= |b.samples|
    && (forall k :: 0 <= k < n ==> b.samples[k] == stream[start + k].0)
    && (n > 0 ==> b.timing.startUs == stream[start].1 && b.timing.endUs == stream[start + n - 1].1)
  }

  predicate Full(s: BufferState) {
    s == READY || s == PROCESSING
  }

  /** A full buffer holds one completed window of the stream and its timing. */
  ghost predicate HoldsWindow(b: Buffer, t: Track, start: nat) {
    && b.timing.count == WINDOW && Matches(b, t.stream, start, WINDOW)
    && b.timing.rate == EffectiveRate(b.timing.startUs, b.timing.endUs) && start in t.completed
  }

  ghost predicate BufferInv(b: Buffer, t: Track, start: nat) {
    match b.state
    case FREE => true
    case FILLING =>
      && b.timing.count < WINDOW && start + b.timing.count == |t.stream|
      && Matches(b, t.stream, start, b.timing.count)
      && forall a :: 0 <= a < |t.completed| ==> t.completed[a] + WINDOW <= start
    case READY => HoldsWindow(b, t, start) && start !in t.handed
    case PROCESSING => HoldsWindow(b, t, start) && start in t.handed
  }

  /** Completed windows follow each other without overlap; each is handed out at most once. */
  ghost predicate WindowsInv(t: Track) {
    && (forall a, b :: 0 <= a < b < |t.completed| ==> t.completed[a] + WINDOW <= t.completed[b])
    && (forall a :: 0 <= a < |t.completed| ==> t.completed[a] + WINDOW <= |t.stream|)
    && (forall a :: 0 <= a < |t.handed| ==> t.handed[a] in t.completed)
    && (forall a, b :: 0 <= a < b < |t.handed| ==> t.handed[a] != t.handed[b])
  }

  ghost function Fullness(s: BufferState): nat {
    if Full(s) then 1 else 0
  }

  ghost predicate CountsInv(p: Pair, t: Track)
    requires p.Shaped()
  {
    && t.captured == WINDOW * |t.completed| + (if p.filling >= 0 then p.buffers[p.filling].timing.count else 0)
    && |t.completed| == t.released + Fullness(p.buffers[0].state) + Fullness(p.buffers[1].state)
    && t.captured + t.dropped <= |t.stream|
    && |t.stalls| == |t.resumptions| + (if p.filling < 0 then 1 else 0) && (t.dropped > 0 ==> t.stalls != [])
    && p.counters.captured == t.captured % WORD && p.counters.dropped == t.dropped % WORD
    && p.counters.completed == |t.completed| % WORD && p.counters.swaps == |t.completed| % WORD
    && p.counters.processed == t.released % WORD && p.counters.overruns == |t.stalls| % WORD
  }

  ghost predicate Inv(p: Pair, t: Track) {
    && p.Shaped() && |t.start| == 2
    && (p.buffers[0].state == FILLING <==> p.filling == 0) && (p.buffers[1].state == FILLING <==> p.filling == 1)
    && (p.filling < 0 ==> Full(p.buffers[0].state) && Full(p.buffers[1].state))
    && (Full(p.buffers[0].state) && Full(p.buffers[1].state) ==> t.start[0] != t.start[1])
    && BufferInv(p.buffers[0], t, t.start[0]) && BufferInv(p.buffers[1], t, t.start[1])
    && WindowsInv(t) && CountsInv(p, t)
  }

  lemma BumpCounts(n: nat)
    ensures Bump(n % WORD) == (n + 1) % WORD
  {
  }

  lemma InitialInv()
    ensures Inv(Initial(), NO_TRACK)
  {
  }

  /** A full buffer is unaffected by anything that only extends the record. */
  lemma FullBufferKept(b: Buffer, t: Track, t': Track, start: nat)
    requires BufferInv(b, t, start) && b.state != FILLING
    requires t.stream <= t'.stream && t'.handed == t.handed && t.completed <= t'.completed
    ensures BufferInv(b, t', start)
  {
    if Full(b.state) {
      assert forall k :: 0 <= k < |t.stream| ==> t'.stream[k] == t.stream[k];
      assert forall a :: 0 <= a < |t.completed| ==> t'.completed[a] == t.completed[a];
    }
  }

  lemma SampleMatches(b: Buffer, stream: seq<(Sample, u32)>, start: nat, sample: Sample, us: u32)
    requires b.timing.count < |b.samples| && start + b.timing.count == |stream| && Matches(b, stream, start, b.timing.count)
    ensures Matches(WithSample(b, sample, us), stream + [(sample, us)], start, b.timing.count + 1)
  {
  }

  /** Appending while a buffer is filling, short of completing it. */
  lemma AppendContinues(p: Pair, t: Track, sample: Sample, us: u32)
    requires Inv(p, t) && p.filling >= 0 && p.buffers[p.filling].timing.count + 1 < WINDOW
    ensures Inv(Append(p, sample, us).0, TrackAppend(p, t, sample, us))
  {
    hide Matches, Bump;
    var q, u := Append(p, sample, us).0, TrackAppend(p, t, sample, us);
    var f, o := p.filling, 1 - p.filling;
    SampleMatches(p.buffers[f], t.stream, t.start[f], sample, us);
    FullBufferKept(p.buffers[o], t, u, t.start[o]);
    BumpCounts(t.captured);
  }

  lemma RateKeepsMatches(b: Buffer, stream: seq<(Sample, u32)>, start: nat, n: nat, rate: real, state: BufferState)
    requires Matches(b, stream, start, n)
    ensures Matches(b.(timing := b.timing.(rate := rate), state := state), stream, start, n)
  {
  }

  lemma WindowCompleted(t: Track, u: Track, start: nat)
    requires WindowsInv(t) && start + WINDOW == |u.stream| && t.stream <= u.stream && u.handed == t.handed
    requires u.completed == t.completed + [start]
    requires forall a :: 0 <= a < |t.completed| ==> t.completed[a] + WINDOW <= start
    ensures WindowsInv(u) && start in u.completed && start !in t.completed && start !in u.handed
    ensures forall a :: 0 <= a < |u.completed| ==> u.completed[a] + WINDOW <= |u.stream|
  {
    assert u.completed[|t.completed|] == start;
    forall a | 0 <= a < |u.handed|
      ensures u.handed[a] in u.completed && u.handed[a] != start
    {
      assert t.handed[a] in t.completed;
    }
  }

  /** Appending the last sample of a window. */
  lemma AppendCompletes(p: Pair, t: Track, sample: Sample, us: u32)
    requires Inv(p, t) && p.filling >= 0 && p.buffers[p.filling].timing.count + 1 == WINDOW
    ensures Inv(Append(p, sample, us).0, TrackAppend(p, t, sample, us))
  {
    hide Bump, EffectiveRate;
    var q, u := Append(p, sample, us).0, TrackAppend(p, t, sample, us);
    var f, o := p.filling, 1 - p.filling;
    var start := t.start[f];
    SampleMatches(p.buffers[f], t.stream, start, sample, us);
    var b := WithSample(p.buffers[f], sample, us);
    RateKeepsMatches(b, u.stream, start, WINDOW, EffectiveRate(b.timing.startUs, b.timing.endUs), READY);
    assert u.completed == t.completed + [start];
    WindowCompleted(t, u, start);
    BumpCounts(t.captured);
    BumpCounts(|t.completed|);
    BumpCounts(|t.stalls|);
    if p.buffers[o].state == FREE {
      assert q.filling == o && u.start[o] == |u.stream|;
      assert BufferInv(q.buffers[o], u, u.start[o]);
    } else {
      FullBufferKept(p.buffers[o], t, u, t.start[o]);
      assert t.start[o] in t.completed;
    }
  }

  lemma AppendDrops(p: Pair, t: Track, sample: Sample, us: u32)
    requires Inv(p, t) && p.filling < 0
    ensures !Append(p, sample, us).1 && Inv(Append(p, sample, us).0, TrackAppend(p, t, sample, us))
  {
    hide Matches, Bump;
    var u := TrackAppend(p, t, sample, us);
    FullBufferKept(p.buffers[0], t, u, t.start[0]);
    FullBufferKept(p.buffers[1], t, u, t.start[1]);
    BumpCounts(t.dropped);
  }

  lemma AppendKeepsInv(p: Pair, t: Track, sample: Sample, us: u32)
    requires Inv(p, t)
    ensures Inv(Append(p, sample, us).0, TrackAppend(p, t, sample, us))
    ensures Append(p, sample, us).1 <==> p.filling >= 0
  {
    hide Inv, TrackAppend;
    assert p.Shaped() by {
      InvShaped(p, t);
    }
    if p.filling < 0 {
      AppendDrops(p, t, sample, us);
    } else if p.buffers[p.filling].timing.count + 1 == WINDOW {
      AppendCompletes(p, t, sample, us);
    } else {
      AppendContinues(p, t, sample, us);
    }
  }

  lemma InvShaped(p: Pair, t: Track)
    requires Inv(p, t)
    ensures p.Shaped() && |t.start| == 2
  {
  }

  /** Appending never writes to a buffer that is ready or being processed. */
  lemma AppendKeepsFullBuffers(p: Pair, t: Track, sample: Sample, us: u32, i: nat)
    requires Inv(p, t) && i < 2 && Full(p.buffers[i].state)
    ensures Append(p, sample, us).0.buffers[i] == p.buffers[i]
  {
    hide BufferInv, WindowsInv, CountsInv, EffectiveRate;
  }

  /** The window handed out is 256 consecutive frames of the offered stream, with
      the time stamps of its first and last frame, and was never handed out before. */
  lemma AcquireHandsOutWindow(p: Pair, t: Track)
    requires Inv(p, t)
    ensures Inv(AcquireReady(p).0, TrackAcquire(p, t))
    ensures var i := AcquireReady(p).1;
      if i < 0 then p.buffers[0].state != READY && p.buffers[1].state != READY
      else
        && i < 2 && p.buffers[i].state == READY
        && HoldsWindow(p.buffers[i], t, t.start[i]) && t.start[i] !in t.handed
  {
    hide Matches, EffectiveRate;
    var i := AcquireReady(p).1;
    if i >= 0 {
      var u := TrackAcquire(p, t);
      assert u.handed[|t.handed|] == t.start[i];
      StateKeepsMatches(p.buffers[i], t.stream, t.start[i], WINDOW, PROCESSING);
    }
  }

  /** The scan is by index: the second buffer is handed out only if the first is not ready. */
  lemma AcquireScansByIndex(p: Pair)
    requires p.Shaped()
    ensures var i := AcquireReady(p).1;
      && -1 <= i < 2 && (i >= 0 ==> p.buffers[i].state == READY)
      && forall k :: 0 <= k < 2 && p.buffers[k].state == READY ==> 0 <= i <= k
  {
  }

  lemma StateKeepsMatches(b: Buffer, stream: seq<(Sample, u32)>, start: nat, n: nat, state: BufferState)
    requires Matches(b, stream, start, n)
    ensures Matches(b.(state := state), stream, start, n)
  {
  }

  lemma EmptyMatches(b: Buffer, stream: seq<(Sample, u32)>)
    ensures Matches(b, stream, |stream|, 0)
  {
  }

  lemma ReleaseKeepsInv(p: Pair, t: Track, i: nat)
    requires Inv(p, t)
    ensures Inv(Release(p, i).0, TrackRelease(p, t, i))
  {
    hide Bump, Matches;
    if Release(p, i).1 {
      BumpCounts(t.released);
      var q, u := Release(p, i).0, TrackRelease(p, t, i);
      var o := 1 - i;
      assert q.buffers[o] == p.buffers[o] && u.start[o] == t.start[o];
      EmptyMatches(q.buffers[i], u.stream);
      assert BufferInv(q.buffers[i], u, u.start[i]);
    }
  }

  lemma SkipKeepsInv(p: Pair, t: Track, frames: seq<(Sample, u32)>)
    requires Inv(p, t) && p.filling < 0
    ensures Inv(p, t.(stream := t.stream + frames))
  {
    hide Matches;
    var u := t.(stream := t.stream + frames);
    FullBufferKept(p.buffers[0], t, u, t.start[0]);
    FullBufferKept(p.buffers[1], t, u, t.start[1]);
  }

  lemma {:induction false} FramesKeepInv(p: Pair, t: Track, frames: seq<(Sample, u32)>)
    requires Inv(p, t)
    ensures p.Shaped() && |t.start| == 2
    ensures Inv(AppendFrames(p, frames).0, TrackFrames(p, t, frames))
    ensures TrackFrames(p, t, frames).stream == t.stream + frames
    decreases |frames|
  {
    hide Inv, Append, TrackAppend;
    InvShaped(p, t);
    if frames == [] {
      assert t.stream + frames == t.stream;
    } else {
      var sample, us := frames[0].0, frames[0].1;
      AppendKeepsInv(p, t, sample, us);
      var q, u := Append(p, sample, us).0, TrackAppend(p, t, sample, us);
      AppendExtends(p, t, sample, us);
      assert frames == [frames[0]] + frames[1..];
      assert t.stream + frames == u.stream + frames[1..];
      if Append(p, sample, us).1 {
        FramesKeepInv(q, u, frames[1..]);
      } else {
        SkipKeepsInv(q, u, frames[1..]);
      }
    }
  }

  lemma AppendExtends(p: Pair, t: Track, sample: Sample, us: u32)
    requires Inv(p, t)
    ensures p.Shaped() && |t.start| == 2
    ensures TrackAppend(p, t, sample, us).stream == t.stream + [(sample, us)]
    ensures !Append(p, sample, us).1 ==> Append(p, sample, us).0.filling < 0
  {
  }

  // ----- Every interleaving -----

  datatype Event =
    | Batch(words: seq<int>, firstUs: u32, intervalUs: u32)
    | Acquire
    | ReleaseIndex(index: nat)

  ghost function Apply(s: (Pair, Track), e: Event): (r: (Pair, Track))
    requires Inv(s.0, s.1)
    ensures Inv(r.0, r.1)
  {
    match e
    case Batch(words, firstUs, intervalUs) =>
      if !WellFormedBatch(words) then s
      else
        var frames := Frames(words, 0, firstUs, intervalUs);
        FramesKeepInv(s.0, s.1, frames);
        (AppendFrames(s.0, frames).0, TrackFrames(s.0, s.1, frames))
    case Acquire =>
      AcquireHandsOutWindow(s.0, s.1);
      (AcquireReady(s.0).0, TrackAcquire(s.0, s.1))
    case ReleaseIndex(i) =>
      ReleaseKeepsInv(s.0, s.1, i);
      (Release(s.0, i).0, TrackRelease(s.0, s.1, i))
  }

  ghost function Run(events: seq<Event>): (r: (Pair, Track))
    ensures Inv(r.0, r.1)
    decreases |events|
  {
    InitialInv();
    if events == [] then (Initial(), NO_TRACK)
    else Apply(Run(events[..|events| - 1]), events[|events| - 1])
  }

  /** The frames a run has offered, in order. */
  ghost function Offered(events: seq<Event>): seq<(Sample, u32)> {
    if events == [] then []
    else
      var e := events[|events| - 1];
      Offered(events[..|events| - 1])
      + (if e.Batch? && WellFormedBatch(e.words) then Frames(e.words, 0, e.firstUs, e.intervalUs) else [])
  }

  lemma {:induction false} RunTracksOffered(events: seq<Event>)
    ensures Run(events).1.stream == Offered(events)
    decreases |events|
  {
    hide Inv, AppendFrames, Frames, AcquireReady, Release;
    if events != [] {
      var before := events[..|events| - 1];
      RunTracksOffered(before);
      var s := Run(before);
      InvShaped(s.0, s.1);
      match events[|events| - 1]
      case Batch(words, firstUs, intervalUs) =>
        if WellFormedBatch(words) {
          FramesKeepInv(s.0, s.1, Frames(words, 0, firstUs, intervalUs));
        }
      case Acquire =>
        assert Offered(events) == Offered(before);
      case ReleaseIndex(_) =>
        assert Offered(events) == Offered(before);
    }
  }

  /** For every interleaving: the windows handed out are pairwise disjoint runs of
      256 consecutive offered frames, and the counters balance. */
  lemma EveryRunIsSound(events: seq<Event>)
    ensures var (p, t) := Run(events);
      && t.stream == Offered(events)
      && (forall a, b :: 0 <= a < b < |t.handed| ==>
            t.handed[a] + 256 <= t.handed[b] || t.handed[b] + 256 <= t.handed[a])
      && p.Shaped()
      && t.captured == 256 * |t.completed| + (if p.filling >= 0 then p.buffers[p.filling].timing.count else 0)
      && |t.completed| == t.released + Fullness(p.buffers[0].state) + Fullness(p.buffers[1].state)
      && p.counters.captured == t.captured % WORD && p.counters.completed == |t.completed| % WORD
      && p.counters.processed == t.released % WORD && p.counters.dropped == t.dropped % WORD
      && |t.stalls| == |t.resumptions| + (if p.filling < 0 then 1 else 0) && (t.dropped > 0 ==> t.stalls != [])
      && p.counters.overruns == |t.stalls| % WORD
  {
    RunTracksOffered(events);
    var (p, t) := Run(events);
    forall a, b | 0 <= a < b < |t.handed|
      ensures t.handed[a] + WINDOW <= t.handed[b] || t.handed[b] + WINDOW <= t.handed[a]
    {
      var i :| 0 <= i < |t.completed| && t.completed[i] == t.handed[a];
      var j :| 0 <= j < |t.completed| && t.completed[j] == t.handed[b];
      assert i != j;
    }
  }

  /** The window that the next acquire of any run hands out is 256 consecutive frames
      of what was offered, stamped with its first and last frame's time and the rate
      between them, and no earlier acquire handed it out. */
  lemma HandedOutWindow(events: seq<Event>, k: nat)
    requires Run(events).0.Shaped() && AcquireReady(Run(events).0).1 >= 0 && k < 256
    ensures var (p, t) := Run(events);
      var i := AcquireReady(p).1;
      var b, start := p.buffers[i], t.start[i];
      && start + 256 <= |Offered(events)| && b.samples[k] == Offered(events)[start + k].0
      && b.timing.startUs == Offered(events)[start].1 && b.timing.endUs == Offered(events)[start + 256 - 1].1
      && b.timing.rate == EffectiveRate(b.timing.startUs, b.timing.endUs) && b.timing.count == 256
      && start !in t.handed && Run(events + [Acquire]).1.handed == t.handed + [start]
  {
    hide Inv, EffectiveRate;
    RunTracksOffered(events);
    var (p, t) := Run(events);
    AcquireHandsOutWindow(p, t);
    var events' := events + [Acquire];
    assert events'[..|events'| - 1] == events;
  }
}
