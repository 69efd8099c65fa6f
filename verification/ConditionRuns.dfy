/** Whole runs of windows and relearn requests against the condition service. */
module ConditionRuns {
  import opened Options
  import opened BaselineStatistics
  import opened VibrationCondition

  datatype Event = WindowEvent(scope: Scope, window: Window) | RelearnEvent(request: Option<string>)

  /** What a processed window proposed, or a relearn that took effect. */
  datatype Entry = Proposed(state: State) | Relearned

  /** A run seen from outside: the windows counted in each scope's current version,
      the windows behind each history record, and the proposals in order. */
  datatype Track = Track(counted: map<Scope, seq<Values>>, superseded: seq<seq<Values>>, log: seq<Entry>)

  // ----- The invariant -----

  ghost predicate BaselineInv(b: Baseline, windows: seq<Values>) {
    && b.version >= 1 && b.sampleCount == |windows| && Summarises(b.statistics, windows)
    && (if b.building then b.sampleCount == 0 || b.sampleCount < b.minimum
        else b.sampleCount >= 1 && b.sampleCount >= b.minimum)
  }

  /** The history records of one scope, oldest first. */
  ghost function RecordsOf(history: seq<Superseded>, scope: Scope): seq<Superseded> {
    if history == [] then []
    else RecordsOf(history[..|history| - 1], scope)
         + (if history[|history| - 1].scope == scope then [history[|history| - 1]] else [])
  }

  /** Versions 1, 2, ..., n, once each, in order. */
  ghost predicate Consecutive(records: seq<Superseded>, n: nat) {
    |records| == n && forall i :: 0 <= i < n ==> records[i].version == i + 1
  }

  /** The number of entries at the end of the log that propose s. */
  ghost function TrailingRun(log: seq<Entry>, s: State): nat {
    if log == [] || log[|log| - 1] != Proposed(s) then 0 else TrailingRun(log[..|log| - 1], s) + 1
  }

  ghost predicate ConditionInv(c: Condition, log: seq<Entry>, threshold: int) {
    && (c.pendingState.None? ==> c.pendingCount == 0)
    && (c.pendingState.Some? ==>
          && !Immediate(c.pendingState.value) && c.pendingState.value != c.state
          && c.pendingCount == TrailingRun(log, c.pendingState.value) >= 1
          && c.pendingCount < threshold)
    && (log != [] && log[|log| - 1].Proposed? && !Immediate(log[|log| - 1].state) ==>
          c.state == log[|log| - 1].state || c.pendingState == Some(log[|log| - 1].state))
    && (log != [] && log[|log| - 1].Proposed? && Immediate(log[|log| - 1].state) ==>
          c.state == log[|log| - 1].state && c.pendingState.None?)
    && (log != [] && log[|log| - 1].Relearned? ==> c.state == BASELINE_PENDING && c.pendingState.None?)
  }

  /** Every scope's baseline summarises its counted windows, and its history is whole. */
  ghost predicate ScopesInv(baselines: map<Scope, Baseline>, counted: map<Scope, seq<Values>>, history: seq<Superseded>) {
    && baselines.Keys == counted.Keys
    && (forall s :: s in baselines ==>
          BaselineInv(baselines[s], counted[s]) && Consecutive(RecordsOf(history, s), baselines[s].version - 1))
    && (forall s :: s !in baselines ==> RecordsOf(history, s) == [])
  }

  ghost predicate HistoryInv(history: seq<Superseded>, superseded: seq<seq<Values>>) {
    && |history| == |superseded|
    && (forall i :: 0 <= i < |history| ==>
          history[i].sampleCount == |superseded[i]| && Summarises(history[i].statistics, superseded[i]))
  }

  ghost predicate Inv(g: Gateway, t: Track, settings: Settings) {
    && ScopesInv(g.baselines, t.counted, g.history) && HistoryInv(g.history, t.superseded)
    && (g.condition.Some? ==> g.condition.value.scope in g.baselines)
    && (g.condition.None? ==> g.baselines == map[] && t.log == [])
    && (g.condition.Some? ==> ConditionInv(g.condition.value, t.log, settings.persistenceWindows))
  }

  // ----- One event -----

  lemma InvComplete(b: Baseline, windows: seq<Values>)
    requires BaselineInv(b, windows)
    ensures Complete(b)
  {
  }

  lemma ScopeComplete(g: Gateway, t: Track, settings: Settings, scope: Scope)
    requires Inv(g, t, settings)
    ensures Complete(BaselineFor(g, scope, settings.minimumWindows))
  {
    hide BaselineInv, ConditionInv, Complete;
    NewComplete(settings.minimumWindows);
    if scope in g.baselines {
      InvComplete(g.baselines[scope], t.counted[scope]);
    }
  }

  ghost function CountedFor(t: Track, scope: Scope): seq<Values> {
    if scope in t.counted then t.counted[scope] else []
  }

  ghost function TrackWindow(g: Gateway, t: Track, settings: Settings, scope: Scope, w: Window): Track
    requires Inv(g, t, settings)
  {
    ScopeComplete(g, t, settings, scope);
    var b := BaselineFor(g, scope, settings.minimumWindows);
    if IsDuplicate(b, w) then t
    else
      t.(counted := t.counted[scope := CountedFor(t, scope) + if Eligible(w) && b.building then [ValuesOf(w)] else []],
         log := t.log + [Proposed(Propose(b, w, settings.sqrt).state)])
  }

  ghost function TrackRelearn(g: Gateway, t: Track, settings: Settings, request: Option<string>): Track
    requires Inv(g, t, settings)
  {
    if g.condition.None? || RepeatedRequest(g.baselines[g.condition.value.scope], request) then t
    else
      var scope := g.condition.value.scope;
      Track(t.counted[scope := []], t.superseded + [t.counted[scope]], t.log + [Relearned])
  }

  lemma NewBaselineInv(minimum: int)
    ensures BaselineInv(NewBaseline(minimum), [])
  {
  }

  lemma NextBaselineInv(b: Baseline, windows: seq<Values>, w: Window)
    requires BaselineInv(b, windows)
    ensures BaselineInv(NextBaseline(b, w), windows + if Eligible(w) && b.building then [ValuesOf(w)] else [])
  {
    hide Summarises, Updated;
    if Eligible(w) && b.building {
      UpdateSummarises(b.statistics, windows, ValuesOf(w));
    } else {
      assert windows + [] == windows;
    }
  }

  lemma RunSnoc(log: seq<Entry>, e: Entry, s: State)
    ensures TrailingRun(log + [e], s) == if e == Proposed(s) then TrailingRun(log, s) + 1 else 0
  {
    assert (log + [e])[..|log|] == log;
  }

  /** The hysteresis step keeps the pending count equal to the trailing run. */
  lemma AdvanceInv(c: Condition, log: seq<Entry>, p: Proposal, threshold: int)
    requires ConditionInv(c, log, threshold)
    ensures ConditionInv(Advance(c, p, threshold), log + [Proposed(p.state)], threshold)
  {
    hide TrailingRun;
    RunSnoc(log, Proposed(p.state), p.state);
    assert (log + [Proposed(p.state)])[|log|] == Proposed(p.state);
    if c.pendingState != Some(p.state) && p.state != c.state && !Immediate(p.state) {
      NoRun(log, p.state);
    }
  }

  lemma NoRun(log: seq<Entry>, s: State)
    requires log == [] || log[|log| - 1] != Proposed(s)
    ensures TrailingRun(log, s) == 0
  {
  }

  lemma FreshConditionInv(scope: Scope, threshold: int)
    ensures ConditionInv(Condition(scope, BASELINE_PENDING, None, 0, None, []), [], threshold)
  {
  }

  lemma ScopeKeepsConditionInv(c: Condition, scope: Scope, log: seq<Entry>, threshold: int)
    requires ConditionInv(c, log, threshold)
    ensures ConditionInv(c.(scope := scope), log, threshold)
  {
  }

  lemma WindowKeepsInv(g: Gateway, t: Track, settings: Settings, scope: Scope, w: Window)
    requires Inv(g, t, settings)
    ensures Complete(BaselineFor(g, scope, settings.minimumWindows))
    ensures Inv(Process(g, scope, w, settings), TrackWindow(g, t, settings, scope, w), settings)
  {
    hide ScopesInv, HistoryInv, BaselineInv, ConditionInv, Complete, NextBaseline, Propose, Advance, Eligible, NewBaseline;
    ScopeComplete(g, t, settings, scope);
    var b := BaselineFor(g, scope, settings.minimumWindows);
    if !IsDuplicate(b, w) {
      ScopeBaseline(g, t, settings, scope);
      NextBaselineInv(b, CountedFor(t, scope), w);
      ScopeUpdate(g.baselines, t.counted, g.history, scope, settings.minimumWindows, w);
      FreshConditionInv(scope, settings.persistenceWindows);
      if g.condition.Some? {
        ScopeKeepsConditionInv(g.condition.value, scope, t.log, settings.persistenceWindows);
      }
      var p := Propose(b, w, settings.sqrt);
      AdvanceInv(ConditionFor(g, scope), t.log, p, settings.persistenceWindows);
      AdvanceKeepsScope(ConditionFor(g, scope), p, settings.persistenceWindows);
    }
  }

  lemma ScopeBaseline(g: Gateway, t: Track, settings: Settings, scope: Scope)
    requires Inv(g, t, settings)
    ensures BaselineInv(BaselineFor(g, scope, settings.minimumWindows), CountedFor(t, scope))
  {
    hide BaselineInv, ConditionInv, Consecutive, RecordsOf;
    NewBaselineInv(settings.minimumWindows);
  }

  /** One scope's baseline moves on within its version. */
  lemma ScopeUpdate(baselines: map<Scope, Baseline>, counted: map<Scope, seq<Values>>, history: seq<Superseded>,
                    scope: Scope, minimum: int, w: Window)
    requires ScopesInv(baselines, counted, history)
    ensures var b := if scope in baselines then baselines[scope] else NewBaseline(minimum);
      var windows := (if scope in counted then counted[scope] else [])
                     + if Eligible(w) && b.building then [ValuesOf(w)] else [];
      BaselineInv(NextBaseline(b, w), windows) ==>
        ScopesInv(baselines[scope := NextBaseline(b, w)], counted[scope := windows], history)
  {
    hide BaselineInv, NextBaseline, Eligible, Consecutive, RecordsOf, NewBaseline;
    VersionKept(if scope in baselines then baselines[scope] else NewBaseline(minimum), w);
    NoRecordsYet(minimum);
  }

  lemma VersionKept(b: Baseline, w: Window)
    ensures NextBaseline(b, w).version == b.version
  {
  }

  lemma NoRecordsYet(minimum: int)
    ensures NewBaseline(minimum).version == 1 && Consecutive([], 0)
  {
  }

  lemma RecordsSnoc(history: seq<Superseded>, r: Superseded, scope: Scope)
    ensures RecordsOf(history + [r], scope) == RecordsOf(history, scope) + if r.scope == scope then [r] else []
  {
    assert (history + [r])[..|history|] == history;
  }

  lemma RelearnKeepsInv(g: Gateway, t: Track, settings: Settings, request: Option<string>)
    requires Inv(g, t, settings)
    ensures Inv(Relearn(g, request), TrackRelearn(g, t, settings, request), settings)
  {
    hide ScopesInv, HistoryInv, ConditionInv;
    if g.condition.Some? && !RepeatedRequest(g.baselines[g.condition.value.scope], request) {
      var scope := g.condition.value.scope;
      var b := g.baselines[scope];
      ScopeCounted(g.baselines, t.counted, g.history);
      ScopeSuperseded(g.baselines, t.counted, g.history, scope, request);
      HistoryGrows(g.history, t.superseded, Superseded(scope, b.version, b.sampleCount, b.statistics), t.counted[scope]);
      RelearnedConditionInv(scope, t.log, settings.persistenceWindows);
    }
  }

  lemma ScopeCounted(baselines: map<Scope, Baseline>, counted: map<Scope, seq<Values>>, history: seq<Superseded>)
    requires ScopesInv(baselines, counted, history)
    ensures baselines.Keys == counted.Keys
    ensures forall s :: s in baselines ==>
      baselines[s].sampleCount == |counted[s]| && Summarises(baselines[s].statistics, counted[s])
  {
    hide Consecutive, RecordsOf, Summarises;
  }

  lemma HistoryGrows(history: seq<Superseded>, superseded: seq<seq<Values>>, r: Superseded, windows: seq<Values>)
    requires HistoryInv(history, superseded) && r.sampleCount == |windows| && Summarises(r.statistics, windows)
    ensures HistoryInv(history + [r], superseded + [windows])
  {
    hide Summarises;
  }

  /** One scope's version is superseded and starts over. */
  lemma ScopeSuperseded(baselines: map<Scope, Baseline>, counted: map<Scope, seq<Values>>, history: seq<Superseded>,
                        scope: Scope, request: Option<string>)
    requires ScopesInv(baselines, counted, history) && scope in baselines
    ensures var b := baselines[scope];
      ScopesInv(baselines[scope := Baseline(b.version + 1, true, 0, b.minimum, map[], None, None, request)],
                counted[scope := []], history + [Superseded(scope, b.version, b.sampleCount, b.statistics)])
  {
    hide RecordsOf, BaselineInv, Consecutive;
    var b := baselines[scope];
    var r := Superseded(scope, b.version, b.sampleCount, b.statistics);
    BaselineFacts(b, counted[scope]);
    RelearnedBaselineInv(b, request);
    ConsecutiveSnoc(RecordsOf(history, scope), r, b.version - 1);
    forall s: Scope
      ensures RecordsOf(history + [r], s) == if s == scope then RecordsOf(history, s) + [r] else RecordsOf(history, s)
    {
      RecordsSnoc(history, r, s);
    }
  }

  lemma BaselineFacts(b: Baseline, windows: seq<Values>)
    requires BaselineInv(b, windows)
    ensures b.version >= 1 && b.sampleCount == |windows| && Summarises(b.statistics, windows)
  {
  }

  lemma RelearnedBaselineInv(b: Baseline, request: Option<string>)
    ensures BaselineInv(Baseline(b.version + 1, true, 0, b.minimum, map[], None, None, request), [])
  {
  }

  lemma ConsecutiveSnoc(records: seq<Superseded>, r: Superseded, n: nat)
    requires Consecutive(records, n) && r.version == n + 1
    ensures Consecutive(records + [r], n + 1)
  {
  }

  lemma RelearnedConditionInv(scope: Scope, log: seq<Entry>, threshold: int)
    ensures ConditionInv(Condition(scope, BASELINE_PENDING, None, 0, None, []), log + [Relearned], threshold)
  {
  }

  // ----- Whole runs -----

  ghost function Run(settings: Settings, events: seq<Event>): (r: (Gateway, Track))
    ensures Inv(r.0, r.1, settings)
    decreases |events|
  {
    if events == [] then (EMPTY, Track(map[], [], []))
    else
      var s := Run(settings, events[..|events| - 1]);
      match events[|events| - 1]
      case WindowEvent(scope, w) =>
        WindowKeepsInv(s.0, s.1, settings, scope, w);
        (Process(s.0, scope, w, settings), TrackWindow(s.0, s.1, settings, scope, w))
      case RelearnEvent(request) =>
        RelearnKeepsInv(s.0, s.1, settings, request);
        (Relearn(s.0, request), TrackRelearn(s.0, s.1, settings, request))
  }

  /** A frozen baseline is untouched by every window, in its own scope or another. */
  lemma FrozenUntilRelearn(g: Gateway, t: Track, settings: Settings, scope: Scope, w: Window, s: Scope)
    requires Inv(g, t, settings) && s in g.baselines && !g.baselines[s].building
    ensures Complete(BaselineFor(g, scope, settings.minimumWindows)) && s in Process(g, scope, w, settings).baselines
    ensures var b, b' := g.baselines[s], Process(g, scope, w, settings).baselines[s];
      && !b'.building && b'.version == b.version && b'.sampleCount == b.sampleCount && b'.statistics == b.statistics
  {
    hide Updated, Propose, Advance;
    ScopeComplete(g, t, settings, scope);
  }

  /** However many windows follow, a frozen baseline keeps its statistics. */
  lemma {:induction false} FrozenOverRun(settings: Settings, events: seq<Event>, more: seq<Event>, s: Scope)
    requires s in Run(settings, events).0.baselines && !Run(settings, events).0.baselines[s].building
    requires forall i :: 0 <= i < |more| ==> more[i].WindowEvent?
    ensures s in Run(settings, events + more).0.baselines
    ensures var b, b' := Run(settings, events).0.baselines[s], Run(settings, events + more).0.baselines[s];
      && !b'.building && b'.version == b.version && b'.sampleCount == b.sampleCount && b'.statistics == b.statistics
    decreases |more|
  {
    hide Inv, Process, TrackWindow;
    if more == [] {
      assert events + more == events;
    } else {
      var n := |more| - 1;
      FrozenOverRun(settings, events, more[..n], s);
      var all := events + more;
      assert all[..|all| - 1] == events + more[..n] && all[|all| - 1] == more[n];
      var before := Run(settings, events + more[..n]);
      FrozenUntilRelearn(before.0, before.1, settings, more[n].scope, more[n].window, s);
      assert Run(settings, all).0 == Process(before.0, more[n].scope, more[n].window, settings);
    }
  }

  /** A relearn supersedes the current version verbatim, and no later event of a run
      changes a history record. */
  lemma {:induction false} HistoryIsPermanent(settings: Settings, events: seq<Event>, more: seq<Event>)
    ensures Run(settings, events).0.history <= Run(settings, events + more).0.history
    ensures more != [] && more[0].RelearnEvent? ==>
      var g := Run(settings, events).0;
      g.condition.Some? ==>
        var scope := g.condition.value.scope;
        && scope in g.baselines
        && var b := g.baselines[scope];
           !RepeatedRequest(b, more[0].request) ==>
             g.history + [Superseded(scope, b.version, b.sampleCount, b.statistics)]
               <= Run(settings, events + more).0.history
    decreases |more|
  {
    hide Inv, TrackWindow, TrackRelearn, Propose, NextBaseline, Advance;
    if more == [] {
      assert events + more == events;
    } else {
      var n := |more| - 1;
      HistoryIsPermanent(settings, events, more[..n]);
      var all := events + more;
      assert all[..|all| - 1] == events + more[..n] && all[|all| - 1] == more[n];
      ConditionScope(settings, events);
      if n == 0 {
        assert events + more[..0] == events;
      }
    }
  }

  lemma ConditionScope(settings: Settings, events: seq<Event>)
    ensures var g := Run(settings, events).0; g.condition.Some? ==> g.condition.value.scope in g.baselines
  {
    hide Run;
    var (g, t) := Run(settings, events);
    assert Inv(g, t, settings);
  }

  /** The last n entries all propose s. */
  ghost predicate LastPropose(log: seq<Entry>, s: State, n: nat) {
    n <= |log| && forall i :: |log| - n <= i < |log| ==> log[i] == Proposed(s)
  }

  lemma {:induction false} TrailingRunMeans(log: seq<Entry>, s: State)
    ensures LastPropose(log, s, TrailingRun(log, s))
    ensures TrailingRun(log, s) < |log| ==> log[|log| - 1 - TrailingRun(log, s)] != Proposed(s)
    decreases |log|
  {
    if log != [] && log[|log| - 1] == Proposed(s) {
      TrailingRunMeans(log[..|log| - 1], s);
    }
  }

  /** The condition enters normal, elevated or significant only once the configured
      number of consecutive processed windows proposed it, or from a pending baseline
      straight to normal. */
  lemma EntryNeedsPersistence(c: Condition, log: seq<Entry>, p: Proposal, threshold: int)
    requires ConditionInv(c, log, threshold)
    requires var s := Advance(c, p, threshold).state; s != c.state && !Immediate(s)
    ensures var s := Advance(c, p, threshold).state;
      || (c.state == BASELINE_PENDING && s == NORMAL)
      || LastPropose(log + [Proposed(p.state)], s, if threshold < 1 then 1 else threshold)
  {
    hide TrailingRun, ConditionInv;
    var s := p.state;
    var longer := log + [Proposed(s)];
    RunSnoc(log, Proposed(s), s);
    TrailingRunMeans(longer, s);
    PendingRun(c, log, s, threshold);
  }

  /** The state reported by a gateway, before and after the first window. */
  ghost function Reported(g: Gateway): State {
    if g.condition.Some? then g.condition.value.state else BASELINE_PENDING
  }

  /** In every run, each entry into normal, elevated or significant was earned. */
  lemma EveryEntryPersisted(settings: Settings, events: seq<Event>)
    requires events != []
    requires var (g, t) := Run(settings, events);
      !Immediate(Reported(g)) && Reported(g) != Reported(Run(settings, events[..|events| - 1]).0)
    ensures var (g, t) := Run(settings, events);
      || (Reported(g) == NORMAL && Reported(Run(settings, events[..|events| - 1]).0) == BASELINE_PENDING)
      || LastPropose(t.log, Reported(g), if settings.persistenceWindows < 1 then 1 else settings.persistenceWindows)
  {
    hide Propose, NextBaseline, Advance, Eligible, BaselineInv, Complete, LastPropose;
    var before := Run(settings, events[..|events| - 1]);
    var e := events[|events| - 1];
    assert e.WindowEvent?;
    var b := BaselineFor(before.0, e.scope, settings.minimumWindows);
    ScopeComplete(before.0, before.1, settings, e.scope);
    assert !IsDuplicate(b, e.window);
    var c, p := ConditionFor(before.0, e.scope), Propose(b, e.window, settings.sqrt);
    FreshConditionInv(e.scope, settings.persistenceWindows);
    if before.0.condition.Some? {
      ScopeKeepsConditionInv(before.0.condition.value, e.scope, before.1.log, settings.persistenceWindows);
    }
    EntryNeedsPersistence(c, before.1.log, p, settings.persistenceWindows);
  }

  /** Conversely, once the configured number of consecutive processed windows proposed
      a state that must persist, that is the state reported. */
  lemma PersistentProposalWins(settings: Settings, events: seq<Event>, s: State)
    requires !Immediate(s)
    requires LastPropose(Run(settings, events).1.log, s, if settings.persistenceWindows < 1 then 1 else settings.persistenceWindows)
    ensures Reported(Run(settings, events).0) == s
  {
    hide Run, TrailingRun;
    var (g, t) := Run(settings, events);
    assert Inv(g, t, settings);
    var n := |t.log|;
    assert t.log[n - 1] == Proposed(s);
    LongTrailingRun(t.log, s, if settings.persistenceWindows < 1 then 1 else settings.persistenceWindows);
  }

  lemma {:induction false} LongTrailingRun(log: seq<Entry>, s: State, n: nat)
    requires LastPropose(log, s, n)
    ensures TrailingRun(log, s) >= n
    decreases n
  {
    if n > 0 {
      LongTrailingRun(log[..|log| - 1], s, n - 1);
    }
  }

  /** In every run a state that needs no persistence is reported as soon as it is
      proposed, a relearn goes back to the pending baseline, and nothing is then pending. */
  lemma ImmediateStatesApply(settings: Settings, events: seq<Event>)
    ensures var (g, t) := Run(settings, events);
      g.condition.Some? && t.log != [] ==>
        var c, last := g.condition.value, t.log[|t.log| - 1];
        && (last.Proposed? && Immediate(last.state) ==> c.state == last.state && c.pendingState.None? && c.pendingCount == 0)
        && (last.Relearned? ==> c.state == BASELINE_PENDING && c.pendingState.None? && c.pendingCount == 0)
  {
    hide Run, TrailingRun;
    var (g, t) := Run(settings, events);
    assert Inv(g, t, settings);
  }

  /** What a processed window shows: its own score and factors, in its own scope. */
  lemma ConditionShowsLatest(g: Gateway, scope: Scope, w: Window, settings: Settings)
    requires Complete(BaselineFor(g, scope, settings.minimumWindows))
    requires !IsDuplicate(BaselineFor(g, scope, settings.minimumWindows), w)
    ensures var c, p := Process(g, scope, w, settings).condition,
                        Propose(BaselineFor(g, scope, settings.minimumWindows), w, settings.sqrt);
      c.Some? && c.value.scope == scope && c.value.score == p.score && c.value.factors == p.factors
  {
    hide Propose, NextBaseline;
  }

  lemma PendingRun(c: Condition, log: seq<Entry>, s: State, threshold: int)
    requires ConditionInv(c, log, threshold)
    ensures c.pendingState == Some(s) ==> c.pendingCount == TrailingRun(log, s)
  {
  }

  /** In every run: the pending count is the length of the trailing run of its state
      since the last other proposal or relearn, and stays below the threshold. */
  lemma EveryRunCountsPersistence(settings: Settings, events: seq<Event>)
    requires Run(settings, events).0.condition.Some?
    ensures var (g, t) := Run(settings, events);
      var c := g.condition.value;
      && c.pendingCount < (if settings.persistenceWindows < 1 then 1 else settings.persistenceWindows)
      && (c.pendingState.None? ==> c.pendingCount == 0)
      && (c.pendingState.Some? ==>
            var s, n := c.pendingState.value, c.pendingCount;
            && LastPropose(t.log, s, n) && (n < |t.log| ==> t.log[|t.log| - 1 - n] != Proposed(s)))
  {
    hide Run, TrailingRun;
    var (g, t) := Run(settings, events);
    assert Inv(g, t, settings);
    var c := g.condition.value;
    if c.pendingState.Some? {
      TrailingRunMeans(t.log, c.pendingState.value);
    }
  }
}
