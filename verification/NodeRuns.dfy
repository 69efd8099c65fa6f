/** Safety of the node over whole runs of requests, boots and power losses. */
module NodeRuns {
  import opened Words
  import opened Options
  import opened PersistentRecord
  import opened Nvm
  import opened FactoryReset
  import opened Bootstrap
  import I = NodeIdentityStore
  import C = ConfigurationStore

  /** Memory survives power loss; the controller exists only while the node is on. */
  datatype Node = Off(cells: Cells) | On(cells: Cells, control: Controller)

  /** A boot comes with the recovery status it ends with. */
  datatype Event =
    | BootUp(recovery: StoreStatus)
    | PowerLoss
    | Handle(request: Request, now: u32, tokens: Option<Tokens>)

  /** One event, run to its end (the node is on) or cut off at any backend step
      (the node is off). */
  ghost predicate Step(hardwareId: Text, n: Node, e: Event, n': Node) {
    match e
    case BootUp(recovery) =>
      && BootReaches(n.cells, n'.cells)
      && (n'.On? ==>
            && n'.control == FRESH.(markerActive := RESET_MARKER in n'.cells)
            && (recovery == Ok ==> RESET_MARKER !in n'.cells))
    case PowerLoss => n' == Off(n.cells)
    case Handle(r, now, tokens) =>
      && n.On? && RequestReaches(n.cells, n.control, r, now, n'.cells)
      && (n'.On? ==> ControlStep(n.cells, n.control, r, hardwareId, now, tokens, n'.cells, n'.control))
  }

  ghost predicate IsRun(hardwareId: Text, nodes: seq<Node>, events: seq<Event>) {
    && |nodes| == |events| + 1
    && forall i :: 0 <= i < |events| ==> Step(hardwareId, nodes[i], events[i], nodes[i + 1])
  }

  ghost predicate AuthorisedConfirm(n: Node, e: Event) {
    n.On? && e.Handle? && Confirms(n.control, e.request, e.now)
  }

  // ----- Which keys a request touches -----

  lemma ProvisionTouches(c: Cells, id: seq<byte>, c': Cells, k: Key)
    requires I.ProvisionReaches(c, id, c')
    ensures k != IDENTITY_A && k != IDENTITY_B ==> SameAt(c, c', k)
    ensures k in c ==> k in c'
  {
    hide Undecodable, I.IdentityRecord, I.LoadFrom, I.ValidNodeId;
    if I.MayProvision(c, id) {
      I.ValidIdLength(id);
    }
  }

  lemma RestoreTouches(c: Cells, input: C.StoredConfiguration, c': Cells, k: Key)
    requires C.WriteReaches(c, input, c')
    ensures k != CONFIGURATION_A && k != CONFIGURATION_B ==> SameAt(c, c', k)
    ensures k in c ==> k in c'
  {
    hide Undecodable, C.RecordOf, C.LoadFrom, C.InRange, C.Stamp;
  }

  /** A request that is not an authorised confirmation removes nothing and leaves
      every key outside the factory list alone. */
  lemma RequestTouches(n: Node, e: Event, c': Cells, k: Key)
    requires n.On? && e.Handle? && RequestReaches(n.cells, n.control, e.request, e.now, c') && !AuthorisedConfirm(n, e)
    ensures k in n.cells ==> k in c'
    ensures k !in FACTORY_RESET ==> SameAt(n.cells, c', k)
  {
    hide I.ProvisionReaches, C.WriteReaches, Authorised;
    match e.request
    case ProvisionIdentity(Some(id)) =>
      if !Busy(n.control) {
        ProvisionTouches(n.cells, id, c', k);
      }
    case RestoreConfiguration(Some(f)) =>
      if !Busy(n.control) {
        RestoreTouches(n.cells, Requested(f), c', k);
      }
    case _ =>
  }

  // ----- All or nothing -----

  ghost predicate Untouched(b: Cells, c: Cells) {
    forall k :: k in FACTORY_RESET ==> SameAt(b, c, k)
  }

  /** Not half erased: the factory list is as in b, or gone. */
  ghost predicate Whole(b: Cells, c: Cells) {
    Untouched(b, c) || AllErased(c, FACTORY_RESET)
  }

  /** c is some stage of a reset begun from b: outside the factory list nothing
      differs but the marker, and without a marker the list is whole or gone. */
  ghost predicate StageOfReset(b: Cells, c: Cells) {
    FactoryErasing(b, c) && (RESET_MARKER in c || Whole(b, c))
  }

  /** The contents a reset in progress is measured against: those before the last
      authorised confirmation, or after the last other request that wrote. */
  ghost function NextBase(b: Cells, n: Node, e: Event, n': Node): Cells {
    if !e.Handle? then b
    else if AuthorisedConfirm(n, e) then n.cells
    else if n'.cells == n.cells then b
    else n'.cells
  }

  ghost function Base(nodes: seq<Node>, events: seq<Event>, i: nat): Cells
    requires |nodes| == |events| + 1 && i <= |events|
  {
    if i == 0 then nodes[0].cells else NextBase(Base(nodes, events, i - 1), nodes[i - 1], events[i - 1], nodes[i])
  }

  lemma ErasingTransitive(b: Cells, c: Cells, c': Cells)
    requires FactoryErasing(b, c) && FactoryErasing(c, c')
    ensures FactoryErasing(b, c')
  {
    forall k | k != RESET_MARKER
      ensures SameAt(b, c', k) || (k in FACTORY_RESET && k !in c')
    {
      assert SameAt(b, c, k) || (k in FACTORY_RESET && k !in c);
      assert SameAt(c, c', k) || (k in FACTORY_RESET && k !in c');
    }
  }

  lemma StageRefl(c: Cells)
    ensures StageOfReset(c, c)
  {
    FactoryErasingRefl(c);
  }

  lemma JournalledErases(c: Cells, c': Cells)
    requires Journalled(c, c')
    ensures FactoryErasing(c, c') && RESET_MARKER in c'
  {
  }

  /** A boot, complete or cut off, leaves a stage of the same reset. */
  lemma BootStaysInReset(b: Cells, c: Cells, c': Cells)
    requires StageOfReset(b, c) && BootReaches(c, c')
    ensures StageOfReset(b, c')
  {
    hide FactoryErasing, Stuck;
    if !Stuck(c) {
      var c1 :| RecoverReaches(c, c1) && CompleteReaches(c1, c');
      RecoveryStaysInReset(b, c, c1);
      if c' != c1 {
        MarkerRemoved(c1);
        ErasingTransitive(b, c1, c');
      }
    }
  }

  lemma RecoveryStaysInReset(b: Cells, c: Cells, c': Cells)
    requires StageOfReset(b, c) && RecoverReaches(c, c')
    ensures StageOfReset(b, c')
  {
    hide FactoryErasing, Stuck;
    if c' != c {
      JournalledErases(c, c');
      ErasingTransitive(b, c, c');
    }
  }

  lemma MarkerRemoved(c: Cells)
    requires AllErased(c, FACTORY_RESET)
    ensures FactoryErasing(c, c - {RESET_MARKER}) && AllErased(c - {RESET_MARKER}, FACTORY_RESET)
  {
  }

  lemma StepStaysInReset(hardwareId: Text, b: Cells, n: Node, e: Event, n': Node)
    requires StageOfReset(b, n.cells) && Step(hardwareId, n, e, n')
    ensures StageOfReset(NextBase(b, n, e, n'), n'.cells)
  {
    hide FactoryErasing, ControlStep, RecoverReaches, CompleteReaches, I.ProvisionReaches, C.WriteReaches, Authorised;
    match e
    case BootUp(_) => BootStaysInReset(b, n.cells, n'.cells);
    case PowerLoss =>
    case Handle(_, _, _) =>
      StageRefl(n.cells);
      StageRefl(n'.cells);
  }

  /** A running node whose memory is half erased knows it: it accepts no write and
      holds no challenge. */
  ghost predicate Aware(b: Cells, n: Node) {
    n.On? ==>
      && !n.control.busy && (n.control.challenge.pending ==> !n.control.markerActive)
      && (!Whole(b, n.cells) ==> n.control.markerActive)
  }

  lemma TornIsUntouched(c: Cells, c': Cells)
    requires Torn(c, RESET_MARKER, c')
    ensures Untouched(c, c')
  {
    hide Undecodable;
    MarkerNotListed();
  }

  lemma StepKeepsAware(hardwareId: Text, b: Cells, n: Node, e: Event, n': Node)
    requires StageOfReset(b, n.cells) && Aware(b, n) && Step(hardwareId, n, e, n')
    ensures Aware(NextBase(b, n, e, n'), n')
    ensures NextBase(b, n, e, n') != b ==> Whole(b, n.cells)
  {
    hide FactoryErasing, AllErased, BootReaches, I.ProvisionReaches, C.WriteReaches, ConfirmReaches, Authorised, Torn;
    match e
    case BootUp(_) => BootStaysInReset(b, n.cells, n'.cells);
    case PowerLoss =>
    case Handle(r, now, _) =>
      if AuthorisedConfirm(n, e) {
        ConfirmsPending(n.control, r, now);
        if n'.On? && Torn(n.cells, RESET_MARKER, n'.cells) {
          TornIsUntouched(n.cells, n'.cells);
        }
      }
  }

  lemma ConfirmsPending(s: Controller, r: Request, now: u32)
    requires Confirms(s, r, now)
    ensures s.challenge.pending && r.ConfirmReset?
  {
  }

  lemma {:induction false} RunKeepsAware(hardwareId: Text, nodes: seq<Node>, events: seq<Event>, i: nat)
    requires IsRun(hardwareId, nodes, events) && i <= |events| && nodes[0].Off?
    ensures StageOfReset(Base(nodes, events, i), nodes[i].cells) && Aware(Base(nodes, events, i), nodes[i])
    decreases i
  {
    hide StageOfReset, Whole, Step, NextBase;
    if i == 0 {
      StageRefl(nodes[0].cells);
    } else {
      RunKeepsAware(hardwareId, nodes, events, i - 1);
      var b := Base(nodes, events, i - 1);
      StepStaysInReset(hardwareId, b, nodes[i - 1], events[i - 1], nodes[i]);
      StepKeepsAware(hardwareId, b, nodes[i - 1], events[i - 1], nodes[i]);
    }
  }

  /** Over every run from power-up, the memory is always a stage of one reset: never
      half erased without a marker, never changed outside the factory list. The
      contents it is measured against are replaced only while the memory is not half
      erased, so no half-erased memory is ever taken for the state before a reset. */
  lemma RunIsAllOrNothing(hardwareId: Text, nodes: seq<Node>, events: seq<Event>, i: nat)
    requires IsRun(hardwareId, nodes, events) && i <= |events| && nodes[0].Off?
    ensures StageOfReset(Base(nodes, events, i), nodes[i].cells)
    ensures i < |events| && Base(nodes, events, i + 1) != Base(nodes, events, i) ==>
      Whole(Base(nodes, events, i), nodes[i].cells)
  {
    hide StageOfReset, Whole, Step, NextBase, Aware;
    RunKeepsAware(hardwareId, nodes, events, i);
    if i < |events| {
      StepKeepsAware(hardwareId, Base(nodes, events, i), nodes[i], events[i], nodes[i + 1]);
    }
  }

  /** At any point of any run from power-up, when recovery reports success the reset
      is settled: without a marker the six keys are all as before or all absent, with
      one they are all absent, and every other key is as before. */
  lemma RecoverySettles(hardwareId: Text, nodes: seq<Node>, events: seq<Event>, i: nat, c': Cells)
    requires IsRun(hardwareId, nodes, events) && i <= |events| && nodes[0].Off?
    requires Recovered(nodes[i].cells, Ok, c')
    ensures if RESET_MARKER in c' then AllErased(c', FACTORY_RESET) else Whole(Base(nodes, events, i), c')
    ensures forall k :: k !in FACTORY_RESET && k != RESET_MARKER ==> SameAt(Base(nodes, events, i), c', k)
  {
    hide Whole, Aware, Step, ReadMarkerFrom;
    RunKeepsAware(hardwareId, nodes, events, i);
    RecoveryStaysInReset(Base(nodes, events, i), nodes[i].cells, c');
    MarkerStatus(nodes[i].cells);
  }

  /** A boot of any run that ends with success leaves no marker, the six keys all as
      before or all absent, and every other key as before. */
  lemma BootSettles(hardwareId: Text, nodes: seq<Node>, events: seq<Event>, i: nat)
    requires IsRun(hardwareId, nodes, events) && i < |events| && nodes[0].Off?
    requires events[i] == BootUp(Ok) && nodes[i + 1].On?
    ensures RESET_MARKER !in nodes[i + 1].cells && !Busy(nodes[i + 1].control)
    ensures Whole(Base(nodes, events, i), nodes[i + 1].cells)
    ensures forall k :: k !in FACTORY_RESET && k != RESET_MARKER ==> SameAt(Base(nodes, events, i), nodes[i + 1].cells, k)
  {
    hide Whole, Aware, BootReaches;
    RunKeepsAware(hardwareId, nodes, events, i + 1);
    assert Step(hardwareId, nodes[i], events[i], nodes[i + 1]);
    assert Base(nodes, events, i + 1) == Base(nodes, events, i);
  }

  // ----- A marker that recovery gives up on -----

  ghost predicate GivenUp(c: Cells, n: Node) {
    n.cells == c && (n.On? ==> n.control.markerActive && !n.control.challenge.pending)
  }

  lemma StepKeepsGivenUp(hardwareId: Text, c: Cells, n: Node, e: Event, n': Node)
    requires Stuck(c) && GivenUp(c, n) && Step(hardwareId, n, e, n')
    ensures GivenUp(c, n')
  {
    hide I.ProvisionReaches, C.WriteReaches, ConfirmReaches, ReadMarkerFrom, Torn;
    MarkerStatus(c);
    if e.Handle? {
      if AuthorisedConfirm(n, e) {
        ConfirmsPending(n.control, e.request, e.now);
      }
    }
  }

  /** From power-up with a stuck marker, no event of any run ever changes the memory:
      no boot replays or removes the marker, and no request gets through. */
  lemma {:induction false} StuckMarkerFreezesNode(hardwareId: Text, nodes: seq<Node>, events: seq<Event>, i: nat)
    requires IsRun(hardwareId, nodes, events) && i <= |events| && nodes[0].Off? && Stuck(nodes[0].cells)
    ensures nodes[i].cells == nodes[0].cells
    ensures nodes[i].On? ==> nodes[i].control.markerActive && !nodes[i].control.challenge.pending
    decreases i
  {
    hide Step, Stuck;
    if i > 0 {
      StuckMarkerFreezesNode(hardwareId, nodes, events, i - 1);
      StepKeepsGivenUp(hardwareId, nodes[0].cells, nodes[i - 1], events[i - 1], nodes[i]);
    }
  }

  // ----- Every removal is authorised -----

  lemma {:induction false} MarkerTraced(hardwareId: Text, nodes: seq<Node>, events: seq<Event>, i: nat) returns (j: nat)
    requires IsRun(hardwareId, nodes, events) && i <= |events|
    requires RESET_MARKER !in nodes[0].cells && RESET_MARKER in nodes[i].cells
    ensures j < i && AuthorisedConfirm(nodes[j], events[j])
    ensures forall m :: j < m <= i ==> RESET_MARKER in nodes[m].cells
    decreases i
  {
    hide I.ProvisionReaches, C.WriteReaches, ControlStep, AuthorisedConfirm, FactoryErasing, Authorised, ConfirmReaches,
      ReadMarkerFrom, Journalled;
    var before, e := nodes[i - 1], events[i - 1];
    assert Step(hardwareId, before, e, nodes[i]);
    if RESET_MARKER in before.cells {
      j := MarkerTraced(hardwareId, nodes, events, i - 1);
    } else {
      j := i - 1;
      if !AuthorisedConfirm(before, e) && e.Handle? {
        MarkerNotListed();
        RequestTouches(before, e, nodes[i].cells, RESET_MARKER);
      }
    }
  }

  /** A removal of a factory key is part of an authorised confirmation, or of a
      boot that replays the marker which one such confirmation left. */
  lemma RemovalTraced(hardwareId: Text, nodes: seq<Node>, events: seq<Event>, i: nat, k: Key) returns (j: nat)
    requires IsRun(hardwareId, nodes, events) && i < |events| && RESET_MARKER !in nodes[0].cells
    requires k in FACTORY_RESET && k in nodes[i].cells && k !in nodes[i + 1].cells
    ensures j <= i && AuthorisedConfirm(nodes[j], events[j])
    ensures forall m :: j < m <= i ==> RESET_MARKER in nodes[m].cells
  {
    hide I.ProvisionReaches, C.WriteReaches, ControlStep, AuthorisedConfirm, FactoryErasing, Authorised, ConfirmReaches,
      ReadMarkerFrom, Journalled;
    var n, e := nodes[i], events[i];
    assert Step(hardwareId, n, e, nodes[i + 1]);
    if AuthorisedConfirm(n, e) {
      j := i;
    } else if e.Handle? {
      RequestTouches(n, e, nodes[i + 1].cells, k);
      assert false;
    } else {
      MarkerNotListed();
      j := MarkerTraced(hardwareId, nodes, events, i);
    }
  }

  // ----- Every authorisation comes from one prepare -----

  /** The event leaves the pending challenge alone. */
  ghost predicate KeepsChallenge(e: Event) {
    e.Handle? && (e.request.ReadState? || e.request.ProvisionIdentity? || e.request.RestoreConfiguration?)
  }

  /** The event is a prepare that set the node's pending challenge to ch. */
  ghost predicate PreparedBy(hardwareId: Text, e: Event, ch: ResetChallenge) {
    && e.Handle? && WellFormedPrepare(e.request, hardwareId) && e.tokens.Some?
    && ch == ResetChallenge(true, ApplicationFactory, e.tokens.value.challenge, e.tokens.value.operationId,
                            hardwareId, Add32(e.now, RESET_TTL))
  }

  lemma {:induction false} PendingTraced(hardwareId: Text, nodes: seq<Node>, events: seq<Event>, i: nat) returns (p: nat)
    requires IsRun(hardwareId, nodes, events) && i <= |events| && nodes[0].Off?
    requires nodes[i].On? && nodes[i].control.challenge.pending
    ensures p < i && PreparedBy(hardwareId, events[p], nodes[i].control.challenge)
    ensures forall m :: p < m < i ==> KeepsChallenge(events[m])
    decreases i
  {
    hide RequestReaches, BootReaches, Torn, Authorised, WellFormedConfirm;
    var n, e := nodes[i - 1], events[i - 1];
    assert Step(hardwareId, n, e, nodes[i]);
    if PreparedBy(hardwareId, e, nodes[i].control.challenge) {
      p := i - 1;
    } else {
      p := PendingTraced(hardwareId, nodes, events, i - 1);
    }
  }

  /** An authorised confirmation names the hardware, operation and challenge of the
      latest prepare, which nothing cancelled, confirmed or powered down since. */
  lemma ConfirmMatchesLatestPrepare(hardwareId: Text, nodes: seq<Node>, events: seq<Event>, j: nat) returns (p: nat)
    requires IsRun(hardwareId, nodes, events) && j < |events| && nodes[0].Off?
    requires AuthorisedConfirm(nodes[j], events[j])
    ensures p < j && forall m :: p < m < j ==> KeepsChallenge(events[m])
    ensures events[p].Handle? && WellFormedPrepare(events[p].request, hardwareId) && events[p].tokens.Some?
    ensures var a := Asked(events[j].request, events[j].now);
      && a.scope == ApplicationFactory && a.hardwareId == hardwareId
      && a.operationId == events[p].tokens.value.operationId && a.challenge == events[p].tokens.value.challenge
      && !Expired(a.now, Add32(events[p].now, RESET_TTL))
  {
    hide Expired, Step;
    p := PendingTraced(hardwareId, nodes, events, j);
  }

  /** The requests of a run are received at these unwrapped times. */
  ghost predicate Clocked(events: seq<Event>, times: seq<nat>) {
    && |times| == |events|
    && (forall i :: 0 <= i < |events| && events[i].Handle? ==> events[i].now == times[i] % WORD)
    && forall i, j :: 0 <= i <= j < |times| ==> times[i] <= times[j]
  }

  /** Measured on a clock that does not wrap, an authorised confirmation comes within
      the challenge's lifetime of its prepare, unless half a clock period or more
      passed after the deadline. */
  lemma ConfirmInTime(hardwareId: Text, nodes: seq<Node>, events: seq<Event>, times: seq<nat>, j: nat) returns (p: nat)
    requires IsRun(hardwareId, nodes, events) && j < |events| && nodes[0].Off? && Clocked(events, times)
    requires AuthorisedConfirm(nodes[j], events[j])
    ensures p < j && events[p].Handle? && WellFormedPrepare(events[p].request, hardwareId) && times[p] <= times[j]
    ensures forall m :: p < m < j ==> KeepsChallenge(events[m])
    ensures times[j] - times[p] < 60000 || (times[j] - times[p] - 60000) % WORD >= 0x8000_0000
    ensures times[j] - times[p] < 60000 + 0x8000_0000 ==> times[j] - times[p] < 60000
  {
    hide Expired, Step;
    p := ConfirmMatchesLatestPrepare(hardwareId, nodes, events, j);
    ExpiryAgrees(times[p], times[j] - times[p], RESET_TTL);
  }

  /** Each prepare authorises at most one confirmation. */
  lemma ConfirmationsNeedOwnPrepare(hardwareId: Text, nodes: seq<Node>, events: seq<Event>, j: nat, k: nat) returns (p: nat)
    requires IsRun(hardwareId, nodes, events) && j < k < |events| && nodes[0].Off?
    requires AuthorisedConfirm(nodes[j], events[j]) && AuthorisedConfirm(nodes[k], events[k])
    ensures j < p < k && events[p].Handle? && WellFormedPrepare(events[p].request, hardwareId)
  {
    hide Expired, Step;
    p := PendingTraced(hardwareId, nodes, events, k);
    assert !KeepsChallenge(events[j]) && !events[j].request.PrepareReset?;
  }

  // ----- Writes are refused while a reset is pending -----

  /** An idle node with a decodable marker knows that a reset is pending. */
  ghost predicate Guarded(n: Node) {
    n.On? ==>
      !n.control.busy &&
      (RESET_MARKER in n.cells && !n.control.markerActive ==> Undecodable(n.cells[RESET_MARKER]))
  }

  lemma StepGuarded(hardwareId: Text, n: Node, e: Event, n': Node)
    requires Step(hardwareId, n, e, n') && Guarded(n)
    ensures Guarded(n')
  {
    hide Undecodable, I.ProvisionReaches, C.WriteReaches, ConfirmReaches, Authorised, BootReaches;
    if e.Handle? && n'.On? {
      if !AuthorisedConfirm(n, e) {
        MarkerNotListed();
        RequestTouches(n, e, n'.cells, RESET_MARKER);
      }
    }
  }

  lemma {:induction false} RunGuarded(hardwareId: Text, nodes: seq<Node>, events: seq<Event>, i: nat)
    requires IsRun(hardwareId, nodes, events) && i <= |events| && Guarded(nodes[0])
    ensures Guarded(nodes[i])
    decreases i
  {
    hide Guarded, Step;
    if i > 0 {
      RunGuarded(hardwareId, nodes, events, i - 1);
      StepGuarded(hardwareId, nodes[i - 1], events[i - 1], nodes[i]);
    }
  }

  /** In every run from power-up, while a decodable marker is stored no identity or
      configuration request changes the memory. */
  lemma MarkedNodeRefusesWrites(hardwareId: Text, nodes: seq<Node>, events: seq<Event>, i: nat)
    requires IsRun(hardwareId, nodes, events) && i < |events| && nodes[0].Off?
    requires nodes[i].On? && ReadMarkerFrom(nodes[i].cells).Marker?
    requires events[i].Handle? && (events[i].request.ProvisionIdentity? || events[i].request.RestoreConfiguration?)
    ensures nodes[i + 1].cells == nodes[i].cells
  {
    RunGuarded(hardwareId, nodes, events, i);
    assert Step(hardwareId, nodes[i], events[i], nodes[i + 1]);
  }

  // ----- The stage of a stored marker -----

  lemma HonestIsLocal(c: Cells, c': Cells)
    requires Honest(c) && SameAt(c, c', RESET_MARKER) && !ReadMarkerFrom(c).Marker?
    ensures Honest(c')
  {
    hide ReadMarkerFrom;
    MarkerIsLocal(c, c');
  }

  lemma StepKeepsHonest(hardwareId: Text, n: Node, e: Event, n': Node)
    requires Step(hardwareId, n, e, n') && Guarded(n) && Honest(n.cells)
    ensures Honest(n'.cells)
  {
    hide Honest, FactoryErasing, MarkerStored, ReadMarkerFrom, Undecodable, ControlStep, I.ProvisionReaches, C.WriteReaches,
      Authorised, Stuck;
    match e
    case BootUp(_) =>
      if !Stuck(n.cells) {
        var c1 :| RecoverReaches(n.cells, c1) && CompleteReaches(c1, n'.cells);
        if n'.cells != c1 {
          UnmarkedIsHonest(n'.cells);
        }
      }
    case PowerLoss =>
    case Handle(_, _, _) =>
      if !AuthorisedConfirm(n, e) && n'.cells != n.cells {
        MarkerNotListed();
        RequestTouches(n, e, n'.cells, RESET_MARKER);
        OpenGuard(n);
        HonestIsLocal(n.cells, n'.cells);
      }
  }

  lemma UnmarkedIsHonest(c: Cells)
    requires RESET_MARKER !in c
    ensures Honest(c)
  {
    hide Decode;
  }

  /** A guarded node that accepts writes stores no decodable marker. */
  lemma OpenGuard(n: Node)
    requires Guarded(n) && n.On? && !Busy(n.control)
    ensures !ReadMarkerFrom(n.cells).Marker?
  {
    hide Decode;
  }

  /** In every run from power-up without a marker, a stored marker that says the keys
      are cleared tells the truth, at every step of every request and boot. */
  lemma {:induction false} ClearedMarkersAreHonest(hardwareId: Text, nodes: seq<Node>, events: seq<Event>, i: nat)
    requires IsRun(hardwareId, nodes, events) && i <= |events| && nodes[0].Off? && RESET_MARKER !in nodes[0].cells
    ensures ReadMarkerFrom(nodes[i].cells).Marker? && ReadMarkerFrom(nodes[i].cells).stage == KeysCleared ==>
      AllErased(nodes[i].cells, FACTORY_RESET)
    decreases i
  {
    hide Step, ReadMarkerFrom;
    if i == 0 {
      UnmarkedIsHonest(nodes[0].cells);
    } else {
      ClearedMarkersAreHonest(hardwareId, nodes, events, i - 1);
      RunGuarded(hardwareId, nodes, events, i - 1);
      StepKeepsHonest(hardwareId, nodes[i - 1], events[i - 1], nodes[i]);
    }
  }

  // ----- A stored marker can be carried through -----

  ghost predicate MarkerWhole(c: Cells) {
    RESET_MARKER in c ==> SoundMarker(c) || Undecodable(c[RESET_MARKER])
  }

  lemma JournalledWhole(c: Cells, c': Cells)
    requires Journalled(c, c') && MarkerWhole(c)
    ensures MarkerWhole(c')
  {
    hide FactoryErasing, Undecodable, ReadMarkerFrom;
    if SameAt(c, c', RESET_MARKER) {
      MarkerIsLocal(c, c');
    }
  }

  lemma StepKeepsMarkerWhole(hardwareId: Text, n: Node, e: Event, n': Node)
    requires Step(hardwareId, n, e, n') && MarkerWhole(n.cells)
    ensures MarkerWhole(n'.cells)
  {
    hide Journalled, Undecodable, ReadMarkerFrom, ControlStep, I.ProvisionReaches, C.WriteReaches;
    match e
    case BootUp(_) =>
      if !Stuck(n.cells) {
        var c1 :| RecoverReaches(n.cells, c1) && CompleteReaches(c1, n'.cells);
        if c1 != n.cells {
          JournalledWhole(n.cells, c1);
        }
      }
    case PowerLoss =>
    case Handle(_, _, _) =>
      if !AuthorisedConfirm(n, e) {
        MarkerNotListed();
        RequestTouches(n, e, n'.cells, RESET_MARKER);
        MarkerIsLocal(n.cells, n'.cells);
      } else if n'.cells != n.cells {
        JournalledWhole(n.cells, n'.cells);
      }
  }

  /** From a marker-free start, every marker a run stores that still decodes names
      a full operation, so the next boot without failures completes the reset; the
      only markers such a boot cannot carry through are the stuck ones. */
  lemma {:induction false} StoredMarkersReplay(hardwareId: Text, nodes: seq<Node>, events: seq<Event>, i: nat)
    requires IsRun(hardwareId, nodes, events) && i <= |events| && RESET_MARKER !in nodes[0].cells
    ensures MarkerWhole(nodes[i].cells)
    ensures ReadMarkerFrom(nodes[i].cells).Marker? ==> Replayable(nodes[i].cells)
    ensures Replayable(nodes[i].cells) <==> !Stuck(nodes[i].cells)
    decreases i
  {
    hide Step, Decode;
    if i > 0 {
      StoredMarkersReplay(hardwareId, nodes, events, i - 1);
      StepKeepsMarkerWhole(hardwareId, nodes[i - 1], events[i - 1], nodes[i]);
    }
    MarkerStatus(nodes[i].cells);
  }
}
