/** Which windows a baseline has learned, read off the events of a run alone. */
module LearnedWindows {
  import opened Options
  import opened BaselineStatistics
  import opened VibrationCondition
  import opened ConditionRuns

  // ----- The ledger of a run -----

  /** The scope of the last window that did not repeat its predecessor; for each scope
      the windows sent to it since its last relearn, and that relearn's request; and
      for every relearn the scope it hit and the windows it put an end to. */
  datatype Ledger = Ledger(
    current: Option<Scope>, sent: map<Scope, seq<Window>>, requests: map<Scope, Option<string>>,
    closed: seq<(Scope, seq<Window>)>)

  /** The window has the session and sequence of the one sent just before it. */
  predicate Repeats(sent: seq<Window>, w: Window) {
    sent != [] && sent[|sent| - 1].session == w.session && sent[|sent| - 1].sequence == w.sequence
  }

  function SentTo(l: Ledger, s: Scope): seq<Window> {
    if s in l.sent then l.sent[s] else []
  }

  function LastRequest(l: Ledger, s: Scope): Option<string> {
    if s in l.requests then l.requests[s] else None
  }

  /** The relearn names a request, and it is the one of the scope's last relearn. */
  predicate Repeated(last: Option<string>, request: Option<string>) {
    request.Some? && request.value != "" && last == request
  }

  function Entered(l: Ledger, e: Event): Ledger {
    match e
    case WindowEvent(s, w) =>
      l.(current := if Repeats(SentTo(l, s), w) then l.current else Some(s), sent := l.sent[s := SentTo(l, s) + [w]])
    case RelearnEvent(request) =>
      if l.current.None? || Repeated(LastRequest(l, l.current.value), request) then l
      else
        var s := l.current.value;
        l.(sent := l.sent[s := []], requests := l.requests[s := request], closed := l.closed + [(s, SentTo(l, s))])
  }

  const NO_LEDGER := Ledger(None, map[], map[], [])

  function LedgerOf(events: seq<Event>): Ledger {
    if events == [] then NO_LEDGER else Entered(LedgerOf(events[..|events| - 1]), events[|events| - 1])
  }

  // ----- What is learned of the windows sent -----

  /** A baseline learns at least one window. */
  function Limit(minimum: int): nat {
    if minimum < 1 then 1 else minimum
  }

  /** The eligible windows that do not repeat their predecessor, in order. */
  function Candidates(sent: seq<Window>): seq<Values> {
    if sent == [] then []
    else
      var before, w := sent[..|sent| - 1], sent[|sent| - 1];
      Candidates(before) + (if Eligible(w) && !Repeats(before, w) then [ValuesOf(w)] else [])
  }

  /** The first of them, up to the configured minimum. */
  function Learned(sent: seq<Window>, minimum: int): seq<Values> {
    var c := Candidates(sent);
    if |c| <= Limit(minimum) then c else c[..Limit(minimum)]
  }

  lemma LearnedStep(sent: seq<Window>, w: Window, minimum: int)
    ensures Learned(sent + [w], minimum) ==
      Learned(sent, minimum)
      + (if Eligible(w) && !Repeats(sent, w) && |Learned(sent, minimum)| < Limit(minimum) then [ValuesOf(w)] else [])
  {
    hide Eligible, ValuesOf;
    assert (sent + [w])[..|sent|] == sent;
  }

  /** The window at position j of sent is a candidate. */
  ghost predicate IsCandidate(sent: seq<Window>, j: nat)
    requires j < |sent|
  {
    Eligible(sent[j]) && !Repeats(sent[..j], sent[j])
  }

  ghost predicate Increasing(positions: seq<nat>, bound: nat) {
    && (forall i :: 0 <= i < |positions| ==> positions[i] < bound)
    && forall i, j :: 0 <= i < j < |positions| ==> positions[i] < positions[j]
  }

  lemma {:induction false} CandidatePositions(sent: seq<Window>) returns (positions: seq<nat>)
    ensures Increasing(positions, |sent|) && |positions| == |Candidates(sent)|
    ensures forall i :: 0 <= i < |positions| ==>
      IsCandidate(sent, positions[i]) && Candidates(sent)[i] == ValuesOf(sent[positions[i]])
    ensures forall j :: 0 <= j < |sent| && IsCandidate(sent, j) ==> j in positions
    decreases |sent|
  {
    hide Eligible, ValuesOf, Repeats;
    positions := [];
    if sent != [] {
      var n := |sent| - 1;
      var before := sent[..n];
      positions := CandidatePositions(before);
      forall j | 0 <= j < n
        ensures IsCandidate(before, j) == IsCandidate(sent, j)
      {
        assert before[..j] == sent[..j];
      }
      if IsCandidate(sent, n) {
        positions := positions + [n];
        assert positions[|positions| - 1] == n;
      }
    }
  }

  /** The learned windows are a subsequence of those sent, all of them eligible and at
      most the limit in number; an eligible window is left out only if it repeats its
      predecessor or comes after the limit was reached. */
  lemma LearnedMeans(sent: seq<Window>, minimum: int) returns (positions: seq<nat>)
    ensures Increasing(positions, |sent|) && |positions| == |Learned(sent, minimum)| <= Limit(minimum)
    ensures forall i :: 0 <= i < |positions| ==>
      Eligible(sent[positions[i]]) && Learned(sent, minimum)[i] == ValuesOf(sent[positions[i]])
    ensures forall j :: 0 <= j < |sent| && Eligible(sent[j]) && j !in positions ==>
      || Repeats(sent[..j], sent[j])
      || (|positions| == Limit(minimum) && forall i :: 0 <= i < |positions| ==> positions[i] < j)
  {
    hide Eligible, ValuesOf, Repeats, Learned, Candidates, Limit;
    var all := CandidatePositions(sent);
    LearnedIsPrefix(sent, minimum);
    var n := |Learned(sent, minimum)|;
    positions := all[..n];
    forall j | 0 <= j < |sent| && Eligible(sent[j]) && j !in positions && !Repeats(sent[..j], sent[j])
      ensures |positions| == Limit(minimum) && forall i :: 0 <= i < |positions| ==> positions[i] < j
    {
      assert IsCandidate(sent, j);
      BeyondPrefix(all, n, j);
    }
  }

  lemma LearnedIsPrefix(sent: seq<Window>, minimum: int)
    ensures var n := |Learned(sent, minimum)|;
      n <= |Candidates(sent)| && n <= Limit(minimum) && Learned(sent, minimum) == Candidates(sent)[..n]
      && (n < |Candidates(sent)| ==> n == Limit(minimum))
  {
  }

  /** A position that is listed, but not among the first n, comes after all of these. */
  lemma BeyondPrefix(all: seq<nat>, n: nat, j: nat)
    requires n <= |all| && j in all && j !in all[..n] && forall i, k :: 0 <= i < k < |all| ==> all[i] < all[k]
    ensures n < |all| && forall i :: 0 <= i < n ==> all[i] < j
  {
    var k :| 0 <= k < |all| && all[k] == j;
    assert k >= n;
  }

  // ----- The service keeps the ledger -----

  ghost predicate BaselineAgrees(b: Baseline, windows: seq<Values>, sent: seq<Window>, request: Option<string>, minimum: int) {
    && b.minimum == minimum && b.lastRelearn == request && windows == Learned(sent, minimum)
    && (if sent == [] then b.lastSession.None? && b.lastSequence.None?
        else b.lastSession == Some(sent[|sent| - 1].session) && b.lastSequence == Some(sent[|sent| - 1].sequence))
  }

  ghost predicate HistoryAgrees(history: seq<Superseded>, superseded: seq<seq<Values>>, closed: seq<(Scope, seq<Window>)>,
                                minimum: int) {
    && |history| == |superseded| == |closed|
    && forall i :: 0 <= i < |closed| ==>
         history[i].scope == closed[i].0 && superseded[i] == Learned(closed[i].1, minimum)
  }

  ghost predicate ScopesAgree(baselines: map<Scope, Baseline>, counted: map<Scope, seq<Values>>, l: Ledger, minimum: int) {
    && baselines.Keys == counted.Keys == l.sent.Keys
    && (forall s :: s in l.sent ==> BaselineAgrees(baselines[s], counted[s], l.sent[s], LastRequest(l, s), minimum))
    && (forall s :: s !in l.sent ==> LastRequest(l, s).None?)
  }

  ghost predicate Agrees(g: Gateway, t: Track, l: Ledger, minimum: int) {
    && ScopesAgree(g.baselines, t.counted, l, minimum)
    && (match g.condition case None => l.current.None? case Some(c) => l.current == Some(c.scope))
    && HistoryAgrees(g.history, t.superseded, l.closed, minimum)
  }

  lemma DuplicateRepeats(b: Baseline, windows: seq<Values>, sent: seq<Window>, request: Option<string>, minimum: int, w: Window)
    requires BaselineAgrees(b, windows, sent, request, minimum)
    ensures IsDuplicate(b, w) <==> Repeats(sent, w)
  {
  }

  /** While a baseline is building it has learned less than its limit, and after that exactly its limit. */
  lemma BuildingBelowLimit(b: Baseline, windows: seq<Values>)
    requires BaselineInv(b, windows)
    ensures b.building <==> |windows| < Limit(b.minimum)
  {
    hide Summarises;
  }

  lemma BaselineStep(b: Baseline, windows: seq<Values>, sent: seq<Window>, request: Option<string>, minimum: int, w: Window)
    requires BaselineAgrees(b, windows, sent, request, minimum) && BaselineInv(b, windows) && !Repeats(sent, w)
    ensures BaselineAgrees(NextBaseline(b, w), windows + (if Eligible(w) && b.building then [ValuesOf(w)] else []),
                           sent + [w], request, minimum)
  {
    hide Summarises, Updated, Learned, Eligible, ValuesOf;
    LearnedStep(sent, w, minimum);
    BuildingBelowLimit(b, windows);
  }

  lemma RepeatStep(b: Baseline, windows: seq<Values>, sent: seq<Window>, request: Option<string>, minimum: int, w: Window)
    requires BaselineAgrees(b, windows, sent, request, minimum) && Repeats(sent, w)
    ensures BaselineAgrees(b, windows, sent + [w], request, minimum)
  {
    hide Learned, Eligible, ValuesOf;
    LearnedStep(sent, w, minimum);
  }

  lemma FirstBaselineAgrees(minimum: int)
    ensures BaselineAgrees(NewBaseline(minimum), [], [], None, minimum)
  {
  }

  lemma WindowAgrees(g: Gateway, t: Track, l: Ledger, settings: Settings, s: Scope, w: Window)
    requires Inv(g, t, settings) && Agrees(g, t, l, settings.minimumWindows)
    ensures Complete(BaselineFor(g, s, settings.minimumWindows))
    ensures Agrees(Process(g, s, w, settings), TrackWindow(g, t, settings, s, w), Entered(l, WindowEvent(s, w)),
                   settings.minimumWindows)
  {
    hide Inv, ScopesAgree, HistoryAgrees, Complete, NextBaseline, Propose, Advance, Eligible, Repeats, IsDuplicate,
      NewBaseline, ValuesOf, BaselineInv;
    var minimum := settings.minimumWindows;
    ScopeComplete(g, t, settings, s);
    ScopeBaseline(g, t, settings, s);
    ScopeEntered(g.baselines, t.counted, l, minimum, s, w);
    AdvanceKeepsScope(ConditionFor(g, s), Propose(BaselineFor(g, s, minimum), w, settings.sqrt), settings.persistenceWindows);
  }

  /** One more window sent to one scope. */
  lemma ScopeEntered(baselines: map<Scope, Baseline>, counted: map<Scope, seq<Values>>, l: Ledger, minimum: int, s: Scope, w: Window)
    requires ScopesAgree(baselines, counted, l, minimum)
    requires BaselineInv(if s in baselines then baselines[s] else NewBaseline(minimum), if s in counted then counted[s] else [])
    ensures var b := if s in baselines then baselines[s] else NewBaseline(minimum);
      var windows := if s in counted then counted[s] else [];
      && (IsDuplicate(b, w) <==> Repeats(SentTo(l, s), w))
      && (if IsDuplicate(b, w) then ScopesAgree(baselines, counted, Entered(l, WindowEvent(s, w)), minimum)
          else ScopesAgree(baselines[s := NextBaseline(b, w)],
                           counted[s := windows + if Eligible(w) && b.building then [ValuesOf(w)] else []],
                           Entered(l, WindowEvent(s, w)), minimum))
  {
    hide BaselineAgrees, NextBaseline, Eligible, Repeats, IsDuplicate, NewBaseline, ValuesOf, BaselineInv;
    var b, windows := if s in baselines then baselines[s] else NewBaseline(minimum), if s in counted then counted[s] else [];
    FirstBaselineAgrees(minimum);
    DuplicateRepeats(b, windows, SentTo(l, s), LastRequest(l, s), minimum, w);
    if Repeats(SentTo(l, s), w) {
      RepeatsSent(l, s, w);
      RepeatStep(b, windows, SentTo(l, s), LastRequest(l, s), minimum, w);
    } else {
      BaselineStep(b, windows, SentTo(l, s), LastRequest(l, s), minimum, w);
    }
  }

  lemma RepeatsSent(l: Ledger, s: Scope, w: Window)
    requires Repeats(SentTo(l, s), w)
    ensures s in l.sent
  {
  }

  lemma RelearnedAgrees(b: Baseline, request: Option<string>, minimum: int)
    requires b.minimum == minimum
    ensures BaselineAgrees(Baseline(b.version + 1, true, 0, b.minimum, map[], None, None, request), [], [], request, minimum)
  {
  }

  lemma AgreementFacts(b: Baseline, windows: seq<Values>, sent: seq<Window>, request: Option<string>, minimum: int)
    requires BaselineAgrees(b, windows, sent, request, minimum)
    ensures b.minimum == minimum && b.lastRelearn == request && windows == Learned(sent, minimum)
  {
  }

  lemma RelearnAgrees(g: Gateway, t: Track, l: Ledger, settings: Settings, request: Option<string>)
    requires Inv(g, t, settings) && Agrees(g, t, l, settings.minimumWindows)
    ensures Agrees(Relearn(g, request), TrackRelearn(g, t, settings, request), Entered(l, RelearnEvent(request)),
                   settings.minimumWindows)
  {
    hide BaselineAgrees, BaselineInv, ConditionInv, Consecutive, RecordsOf, Summarises, Learned;
    var minimum := settings.minimumWindows;
    if g.condition.Some? {
      var s := g.condition.value.scope;
      var b := g.baselines[s];
      AgreementFacts(b, t.counted[s], l.sent[s], LastRequest(l, s), minimum);
      RelearnedAgrees(b, request, minimum);
    }
  }

  lemma {:induction false} RunAgrees(settings: Settings, events: seq<Event>)
    ensures var (g, t) := Run(settings, events); Agrees(g, t, LedgerOf(events), settings.minimumWindows)
    decreases |events|
  {
    hide Agrees, Inv, Process, Relearn, TrackWindow, TrackRelearn, Entered;
    if events == [] {
      StartAgrees(settings.minimumWindows);
    } else {
      var before := events[..|events| - 1];
      RunAgrees(settings, before);
      var (g, t) := Run(settings, before);
      match events[|events| - 1]
      case WindowEvent(s, w) => WindowAgrees(g, t, LedgerOf(before), settings, s, w);
      case RelearnEvent(request) => RelearnAgrees(g, t, LedgerOf(before), settings, request);
    }
  }

  lemma StartAgrees(minimum: int)
    ensures Agrees(EMPTY, Track(map[], [], []), NO_LEDGER, minimum)
  {
  }

  /** Over every run of windows and relearn requests, with everything on the right read
      off the events: each baseline's statistics are the plain ones of exactly the
      windows learned since its last relearn, it is frozen exactly when they reach the
      limit, its history holds versions 1 up to the previous one once each, and the
      i-th relearn's record holds the plain statistics of the windows it put an end to. */
  lemma EveryRunLearnsPlainStatistics(settings: Settings, events: seq<Event>, s: Scope)
    ensures var g, l := Run(settings, events).0, LedgerOf(events);
      var minimum := settings.minimumWindows;
      && (s in g.baselines <==> s in l.sent)
      && (s in g.baselines ==>
            var b, windows := g.baselines[s], Learned(l.sent[s], minimum);
            && b.sampleCount == |windows| && (b.building <==> |windows| < Limit(minimum))
            && (windows != [] ==> forall f: Feature :: f in b.statistics && b.statistics[f] == StatOf(Column(windows, f)))
            && Consecutive(RecordsOf(g.history, s), b.version - 1))
      && |g.history| == |l.closed|
      && (forall i :: 0 <= i < |l.closed| ==>
            var r, windows := g.history[i], Learned(l.closed[i].1, minimum);
            r.scope == l.closed[i].0 && r.sampleCount == |windows| && Summarises(r.statistics, windows))
  {
    hide Run, LedgerOf, Learned, Consecutive, RecordsOf, ConditionInv;
    RunAgrees(settings, events);
    var (g, t) := Run(settings, events);
    assert Inv(g, t, settings);
    if s in g.baselines {
      BuildingBelowLimit(g.baselines[s], t.counted[s]);
    }
  }
}
