/** Where frames are lost: exactly between a stall of the acquisition and the release
    that ends it. */
module Stalls {
  import opened Words
  import opened DoubleBuffer

  /** Frame x of the stream lies in a completed window or in the buffer being filled. */
  ghost predicate Captured(p: Pair, t: Track, x: nat)
    requires p.Shaped() && |t.start| == 2
  {
    || (exists a :: 0 <= a < |t.completed| && t.completed[a] <= x < t.completed[a] + WINDOW)
    || (p.filling >= 0 && t.start[p.filling] <= x < |t.stream|)
  }

  /** Frame x was offered during stall i: after it began and, if it has ended, before that. */
  ghost predicate During(t: Track, i: nat, x: nat)
    requires i < |t.stalls|
  {
    t.stalls[i] <= x && (i < |t.resumptions| ==> x < t.resumptions[i])
  }

  ghost predicate Stalled(t: Track, x: nat) {
    exists i :: 0 <= i < |t.stalls| && During(t, i, x)
  }

  /** A window lies before stall i, or after its end. */
  ghost predicate Apart(t: Track, i: nat, start: nat)
    requires i < |t.stalls|
  {
    start + WINDOW <= t.stalls[i] || (i < |t.resumptions| && t.resumptions[i] <= start)
  }

  ghost predicate StallInv(p: Pair, t: Track)
    requires p.Shaped() && |t.start| == 2
  {
    && (forall i :: 0 <= i < |t.stalls| ==> t.stalls[i] <= |t.stream|)
    && (forall i :: 0 <= i < |t.resumptions| ==> t.resumptions[i] <= |t.stream|)
    && (forall i, a :: 0 <= i < |t.stalls| && 0 <= a < |t.completed| ==> Apart(t, i, t.completed[a]))
    && (p.filling >= 0 ==> forall i :: 0 <= i < |t.resumptions| ==> t.resumptions[i] <= t.start[p.filling])
    && (forall x :: 0 <= x < |t.stream| ==> Captured(p, t, x) || Stalled(t, x))
  }

  /** What the stall invariant needs of the buffer invariant. */
  ghost predicate Shape(p: Pair, t: Track) {
    && p.Shaped() && |t.start| == 2 && |t.stalls| == |t.resumptions| + (if p.filling < 0 then 1 else 0)
    && (p.filling >= 0 ==> t.start[p.filling] + p.buffers[p.filling].timing.count == |t.stream|)
    && (p.filling < 0 ==> FindFree(p) < 0)
    && forall a :: 0 <= a < |t.completed| ==> t.completed[a] + WINDOW <= |t.stream|
  }

  lemma InvShape(p: Pair, t: Track)
    requires Inv(p, t)
    ensures Shape(p, t)
  {
    hide Matches, HoldsWindow, EffectiveRate;
  }

  lemma CapturedAt(p: Pair, t: Track, a: nat, x: nat)
    requires p.Shaped() && |t.start| == 2 && a < |t.completed| && t.completed[a] <= x < t.completed[a] + WINDOW
    ensures Captured(p, t, x)
  {
  }

  lemma StalledAt(t: Track, i: nat, x: nat)
    requires i < |t.stalls| && During(t, i, x)
    ensures Stalled(t, x)
  {
  }

  /** More frames while a buffer is filling, or while none is. */
  lemma Offering(p: Pair, t: Track, q: Pair, u: Track)
    requires Shape(p, t) && StallInv(p, t) && q.Shaped() && q.filling == p.filling
    requires t.stream <= u.stream && u.start == t.start && u.completed == t.completed
    requires u.stalls == t.stalls && u.resumptions == t.resumptions
    ensures StallInv(q, u)
  {
    forall x | 0 <= x < |u.stream|
      ensures Captured(q, u, x) || Stalled(u, x)
    {
      if x < |t.stream| && Stalled(t, x) {
        var i :| 0 <= i < |t.stalls| && During(t, i, x);
        StalledAt(u, i, x);
      } else if x < |t.stream| {
        assert Captured(p, t, x);
      } else if p.filling < 0 {
        StalledAt(u, |u.stalls| - 1, x);
      }
    }
    forall i, a | 0 <= i < |u.stalls| && 0 <= a < |u.completed|
      ensures Apart(u, i, u.completed[a])
    {
      assert Apart(t, i, t.completed[a]);
    }
  }

  /** The filling buffer completes its window; the next one starts, or a stall does. */
  lemma Completing(p: Pair, t: Track, q: Pair, u: Track)
    requires Shape(p, t) && StallInv(p, t) && p.filling >= 0 && q.Shaped() && |u.start| == 2
    requires |u.stream| == t.start[p.filling] + WINDOW && t.stream <= u.stream
    requires u.completed == t.completed + [t.start[p.filling]] && u.resumptions == t.resumptions
    requires if q.filling >= 0 then u.stalls == t.stalls && u.start[q.filling] == |u.stream|
             else u.stalls == t.stalls + [|u.stream|]
    ensures StallInv(q, u)
  {
    var start, n := t.start[p.filling], |t.completed|;
    forall x | 0 <= x < |u.stream|
      ensures Captured(q, u, x) || Stalled(u, x)
    {
      if x < |t.stream| && Stalled(t, x) {
        var i :| 0 <= i < |t.stalls| && During(t, i, x);
        StalledAt(u, i, x);
      } else if start <= x {
        assert u.completed[n] == start;
        CapturedAt(q, u, n, x);
      } else {
        assert Captured(p, t, x);
        var a :| 0 <= a < n && t.completed[a] <= x < t.completed[a] + WINDOW;
        assert u.completed[a] == t.completed[a];
        CapturedAt(q, u, a, x);
      }
    }
    forall i, a | 0 <= i < |u.stalls| && 0 <= a < |u.completed|
      ensures Apart(u, i, u.completed[a])
    {
      if i < |t.stalls| && a < n {
        assert Apart(t, i, t.completed[a]);
      }
    }
  }

  /** A release that ends a stall. */
  lemma Resuming(p: Pair, t: Track, q: Pair, u: Track)
    requires Shape(p, t) && StallInv(p, t) && p.filling < 0 && q.Shaped() && |u.start| == 2
    requires u.stream == t.stream && u.completed == t.completed && u.stalls == t.stalls
    requires u.resumptions == t.resumptions + [|t.stream|] && q.filling >= 0 && u.start[q.filling] == |t.stream|
    ensures StallInv(q, u)
  {
    forall x | 0 <= x < |u.stream|
      ensures Captured(q, u, x) || Stalled(u, x)
    {
      if Stalled(t, x) {
        var i :| 0 <= i < |t.stalls| && During(t, i, x);
        StalledAt(u, i, x);
      } else {
        assert Captured(p, t, x);
      }
    }
    forall i, a | 0 <= i < |u.stalls| && 0 <= a < |u.completed|
      ensures Apart(u, i, u.completed[a])
    {
      assert Apart(t, i, t.completed[a]);
    }
  }

  lemma AppendKeepsStallInv(p: Pair, t: Track, sample: Sample, us: u32)
    requires Shape(p, t) && StallInv(p, t)
    ensures Append(p, sample, us).0.Shaped() && |TrackAppend(p, t, sample, us).start| == 2
    ensures StallInv(Append(p, sample, us).0, TrackAppend(p, t, sample, us))
  {
    hide StallInv, EffectiveRate, Bump;
    AppendShaped(p, sample, us);
    var q, u := Append(p, sample, us).0, TrackAppend(p, t, sample, us);
    if p.filling >= 0 && p.buffers[p.filling].timing.count + 1 == WINDOW {
      Completing(p, t, q, u);
    } else {
      Offering(p, t, q, u);
    }
  }

  lemma {:induction false} FramesKeepStallInv(p: Pair, t: Track, frames: seq<(Sample, u32)>)
    requires Inv(p, t) && StallInv(p, t)
    ensures StallInv(AppendFrames(p, frames).0, TrackFrames(p, t, frames))
    decreases |frames|
  {
    hide Inv, Shape, StallInv, Append, TrackAppend;
    InvShaped(p, t);
    if frames != [] {
      var sample, us := frames[0].0, frames[0].1;
      InvShape(p, t);
      AppendKeepsInv(p, t, sample, us);
      AppendKeepsStallInv(p, t, sample, us);
      AppendExtends(p, t, sample, us);
      var q, u := Append(p, sample, us).0, TrackAppend(p, t, sample, us);
      if Append(p, sample, us).1 {
        FramesKeepStallInv(q, u, frames[1..]);
      } else {
        InvShape(q, u);
        Abandoning(q, u, frames[1..]);
      }
    }
  }

  lemma Abandoning(p: Pair, t: Track, frames: seq<(Sample, u32)>)
    requires Shape(p, t) && StallInv(p, t)
    ensures StallInv(p, t.(stream := t.stream + frames))
  {
    hide StallInv;
    Offering(p, t, p, t.(stream := t.stream + frames));
  }

  lemma AcquireKeepsStallInv(p: Pair, t: Track)
    requires Inv(p, t) && StallInv(p, t)
    ensures StallInv(AcquireReady(p).0, TrackAcquire(p, t))
  {
    hide StallInv, Inv;
    InvShaped(p, t);
    InvShape(p, t);
    Offering(p, t, AcquireReady(p).0, TrackAcquire(p, t));
  }

  lemma ReleaseKeepsStallInv(p: Pair, t: Track, i: nat)
    requires Inv(p, t) && StallInv(p, t)
    ensures StallInv(Release(p, i).0, TrackRelease(p, t, i))
  {
    hide StallInv, Inv, Bump;
    InvShaped(p, t);
    InvShape(p, t);
    if Release(p, i).1 && p.filling < 0 {
      Resuming(p, t, Release(p, i).0, TrackRelease(p, t, i));
    } else {
      Offering(p, t, Release(p, i).0, TrackRelease(p, t, i));
    }
  }

  lemma {:induction false} RunKeepsStallInv(events: seq<Event>)
    ensures var (p, t) := Run(events); Inv(p, t) && StallInv(p, t)
    decreases |events|
  {
    hide Inv, StallInv, AppendFrames, Frames, AcquireReady, Release;
    if events == [] {
      StartStallInv();
    } else {
      var before := events[..|events| - 1];
      RunKeepsStallInv(before);
      var (p, t) := Run(before);
      match events[|events| - 1]
      case Batch(words, firstUs, intervalUs) =>
        if WellFormedBatch(words) {
          FramesKeepStallInv(p, t, Frames(words, 0, firstUs, intervalUs));
        }
      case Acquire => AcquireKeepsStallInv(p, t);
      case ReleaseIndex(i) => ReleaseKeepsStallInv(p, t, i);
    }
  }

  lemma StartStallInv()
    ensures Initial().Shaped() && StallInv(Initial(), NO_TRACK)
  {
  }

  /** For every interleaving: a frame offered is lost if and only if it was offered
      between the beginning of a stall and the release that ended it. */
  lemma FramesLostOnlyInStalls(events: seq<Event>, x: nat)
    requires x < |Offered(events)|
    ensures var (p, t) := Run(events); p.Shaped() && |t.start| == 2 && (Captured(p, t, x) <==> !Stalled(t, x))
  {
    hide Inv, Run;
    RunKeepsStallInv(events);
    RunTracksOffered(events);
    var (p, t) := Run(events);
    InvShape(p, t);
    if Stalled(t, x) {
      var i :| 0 <= i < |t.stalls| && During(t, i, x);
      assert forall a :: 0 <= a < |t.completed| ==> Apart(t, i, t.completed[a]);
    }
  }
}
