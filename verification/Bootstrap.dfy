/** The node as its USB bootstrap protocol and boot sequence drive it: identity,
    configuration and reset over one backend, across requests, reboots and power
    loss at any backend step. */
module Bootstrap {
  import opened Words
  import opened Options
  import opened PersistentRecord
  import opened Nvm
  import opened FactoryReset
  import I = NodeIdentityStore
  import C = ConfigurationStore

  const RESET_TTL: u32 := 60000
  const BUSY := "persistent_operation_busy"

  /** The numbers of a restore_configuration request. */
  datatype RestoreFields = RestoreFields(
    sample: u32, processing: u32, report: u32, heartbeat: u32, filterType: u32, filterWindow: u32, enabled: u32)

  /** Requests as already decoded; None marks a missing or malformed field. */
  datatype Request =
    | ReadState
    | ProvisionIdentity(nodeId: Option<Text>)
    | RestoreConfiguration(numbers: Option<RestoreFields>)
    | PrepareReset(version: Option<u32>, factoryScope: bool, expected: Option<Text>)
    | ConfirmReset(resetVersion: Option<u32>, confirmFactoryScope: bool, fields: Option<ConfirmFields>)
    | CancelReset

  datatype ConfirmFields = ConfirmFields(hardwareId: Text, operationId: Text, challenge: Text)

  /** The random operation identifier and challenge drawn for a prepare, if the
      secure generator is available. */
  datatype Tokens = Tokens(operationId: Text, challenge: Text)

  datatype Response =
    | Success
    | Error(code: string)
    | StoreError(status: StoreStatus)

  predicate Busy(s: Controller) {
    s.busy || s.markerActive
  }

  /** The narrow fields keep only the low byte of the request's numbers. */
  function Requested(f: RestoreFields): C.StoredConfiguration {
    C.StoredConfiguration(0, 0, 0, 0, f.sample, f.processing, f.report, f.heartbeat,
                          f.filterType % 0x100, f.filterWindow % 0x100, f.enabled % 0x100, 0, 0)
  }

  predicate WellFormedConfirm(r: Request) {
    r.ConfirmReset? && r.resetVersion == Some(2) && r.confirmFactoryScope && r.fields.Some?
  }

  /** What a well-formed confirmation received at the given time asks for. */
  function Asked(r: Request, now: u32): Confirmation
    requires WellFormedConfirm(r)
  {
    Confirmation(ApplicationFactory, r.fields.value.hardwareId, r.fields.value.operationId, r.fields.value.challenge, now)
  }

  /** The request is a confirmation that the node will carry out. */
  ghost predicate Confirms(s: Controller, r: Request, now: u32) {
    WellFormedConfirm(r) && Authorised(s.challenge, Asked(r, now))
  }

  ghost predicate WellFormedPrepare(r: Request, hardwareId: Text) {
    r.PrepareReset? && r.version == Some(2) && r.factoryScope && r.expected == Some(hardwareId)
  }

  /** The request is a prepare that the node will carry out. */
  ghost predicate Prepares(s: Controller, r: Request, hardwareId: Text, tokens: Option<Tokens>) {
    && WellFormedPrepare(r, hardwareId) && !s.markerActive && tokens.Some?
    && |tokens.value.operationId| == TOKEN_LENGTH && |tokens.value.challenge| == TOKEN_LENGTH
  }

  /** Everything a request, complete or cut off anywhere, can make of the memory. */
  ghost predicate RequestReaches(c: Cells, s: Controller, r: Request, now: u32, c': Cells) {
    match r
    case ProvisionIdentity(Some(id)) => if Busy(s) then c' == c else I.ProvisionReaches(c, id, c')
    case RestoreConfiguration(Some(f)) => if Busy(s) then c' == c else C.WriteReaches(c, Requested(f), c')
    case ConfirmReset(_, _, _) => if Confirms(s, r, now) then ConfirmReaches(c, c') else c' == c
    case _ => c' == c
  }

  /** How a completed request moves the reset controller. */
  ghost predicate ControlStep(c: Cells, s: Controller, r: Request, hardwareId: Text, now: u32, tokens: Option<Tokens>,
                              c': Cells, s': Controller) {
    match r
    case PrepareReset(_, _, _) =>
      s' == s.(challenge :=
        if Prepares(s, r, hardwareId, tokens)
        then ResetChallenge(true, ApplicationFactory, tokens.value.challenge, tokens.value.operationId,
                            hardwareId, Add32(now, RESET_TTL))
        else s.challenge.(pending := false))
    case ConfirmReset(_, _, _) =>
      && s'.challenge == s.challenge.(pending := false)
      && (s'.busy ==> s.busy) && (s.markerActive ==> s'.markerActive)
      && (c' == c || s'.markerActive || Torn(c, RESET_MARKER, c'))
      && (!Confirms(s, r, now) ==> s'.markerActive == s.markerActive)
    case CancelReset => s' == s.(challenge := s.challenge.(pending := false))
    case _ => s' == s
  }

  /** The loaded configuration has the numbers of the request, the narrow ones by
      their low byte. */
  ghost predicate Restored(f: RestoreFields, loaded: C.LoadResult) {
    && loaded.status == Ok && loaded.value.Some?
    && var v := loaded.value.value;
       && v.sampleInterval == f.sample && v.processingInterval == f.processing && v.reportInterval == f.report
       && v.heartbeatInterval == f.heartbeat && v.filterType == f.filterType % 0x100
       && v.filterWindow == f.filterWindow % 0x100 && v.enabled == f.enabled % 0x100
  }

  /** What every response says about the request and the memory it leaves: a success
      certifies the effect, and every refusal carries its own reason. */
  ghost predicate Answers(c: Cells, s: Controller, r: Request, hardwareId: Text, now: u32, tokens: Option<Tokens>,
                          c': Cells, response: Response) {
    match r
    case ProvisionIdentity(nodeId) =>
      if Busy(s) then response == Error(BUSY) && c' == c
      else if nodeId.None? then response == Error("invalid_node_id") && c' == c
      else ProvisionAnswers(c, nodeId.value, c', response)
    case RestoreConfiguration(numbers) =>
      if Busy(s) then response == Error(BUSY) && c' == c
      else if numbers.None? then response == Error("invalid_configuration") && c' == c
      else RestoreAnswers(c, numbers.value, c', response)
    case PrepareReset(version, factoryScope, expected) =>
      c' == c && response ==
        (if version != Some(2) || !factoryScope || expected.None? then Error("secure_reset_v2_required")
         else if expected.value != hardwareId then Error("hardware_identity_mismatch")
         else if tokens.None? then Error("secure_random_unavailable")
         else if Prepares(s, r, hardwareId, tokens) then Success
         else StoreError(InvalidArgument))
    case ConfirmReset(_, _, _) =>
      if !WellFormedConfirm(r) then response == Error("invalid_confirmation") && c' == c
      else if !Confirms(s, r, now) then response == StoreError(InvalidArgument) && c' == c
      else if response == Success then
        AllErased(c', FACTORY_RESET) && ReadMarkerFrom(c') == Marker(r.fields.value.operationId, KeysCleared)
      else response in {StoreError(WriteFailed), StoreError(InvalidArgument)}
    case _ => response == Success && c' == c
  }

  ghost predicate ProvisionAnswers(c: Cells, id: Text, c': Cells, response: Response) {
    if I.MayProvision(c, id) then
      if response == Success then I.LoadFrom(c') == I.Loaded(Ok, I.NodeIdentity(id, 2))
      else response == StoreError(WriteFailed)
    else
      && c' == c
      && response == (if !I.ValidNodeId(id) || I.LoadFrom(c).Loaded? then Error("identity_already_provisioned_or_invalid")
                      else StoreError(I.LoadFrom(c).status))
  }

  ghost predicate RestoreAnswers(c: Cells, f: RestoreFields, c': Cells, response: Response) {
    if C.Accepted(c, Requested(f)) then
      if response == Success then C.Committed(c, Requested(f), c') && (C.Consistent(c) ==> Restored(f, C.LoadFrom(c')))
      else response == StoreError(WriteFailed)
    else
      && c' == c
      && response == StoreError(if C.LoadFrom(c).status in {Ok, RecoveredFromPrevious, NotFound} then InvalidArgument
                                else C.LoadFrom(c).status)
  }

  /** The requests that succeed whenever the backend does not fail. */
  ghost predicate Grants(c: Cells, s: Controller, r: Request, hardwareId: Text, now: u32, tokens: Option<Tokens>) {
    match r
    case ProvisionIdentity(nodeId) => !Busy(s) && nodeId.Some? && I.MayProvision(c, nodeId.value)
    case RestoreConfiguration(numbers) => !Busy(s) && numbers.Some? && C.Accepted(c, Requested(numbers.value))
    case PrepareReset(_, _, _) => Prepares(s, r, hardwareId, tokens)
    case ConfirmReset(_, _, _) => Confirms(s, r, now) && |r.fields.value.operationId| == TOKEN_LENGTH
    case _ => true
  }

  class SensorNode {
    const backend: NvmBackend
    const identities: I.NodeIdentityStore
    const configurations: C.PersistentConfigurationStore
    const hardwareId: Text
    var reset: FactoryResetController

    ghost predicate Valid()
      reads this
    {
      && identities.backend == backend && configurations.backend == backend && reset.backend == backend
    }

    constructor (backend: NvmBackend, hardwareId: Text)
      ensures Valid() && this.backend == backend && this.hardwareId == hardwareId
      ensures fresh(reset) && reset.View() == FRESH
    {
      this.backend := backend;
      this.hardwareId := hardwareId;
      identities := new I.NodeIdentityStore(backend);
      configurations := new C.PersistentConfigurationStore(backend);
      reset := new FactoryResetController(backend);
    }

    method HandleProvision(nodeId: Option<Text>, now: u32) returns (response: Response)
      requires Valid()
      modifies backend
      ensures old(backend.trace) <= backend.trace
      ensures forall i :: |old(backend.trace)| <= i < |backend.trace| ==>
        RequestReaches(old(backend.cells), reset.View(), ProvisionIdentity(nodeId), now, backend.trace[i])
      ensures RequestReaches(old(backend.cells), reset.View(), ProvisionIdentity(nodeId), now, backend.cells)
      ensures Answers(old(backend.cells), reset.View(), ProvisionIdentity(nodeId), hardwareId, now, None, backend.cells, response)
      ensures backend.reliable ==>
        (response == Success <==> Grants(old(backend.cells), reset.View(), ProvisionIdentity(nodeId), hardwareId, now, None))
      ensures response == Error(BUSY) <==> Busy(reset.View())
    {
      hide I.ProvisionReaches, I.MayProvision, I.LoadFrom, I.AfterSlotA, I.AfterSlotB, I.ValidNodeId;
      if reset.busy || reset.markerActive {
        return Error(BUSY);
      }
      match nodeId
      case None => response := Error("invalid_node_id");
      case Some(id) =>
        ghost var c := backend.cells;
        I.LoadMeans(c);
        var status, identity := identities.Provision(id);
        if status == Ok {
          I.InterruptedProvision(c, id, backend.cells);
        }
        response := if status == Ok then Success
          else if status == InvalidArgument then Error("identity_already_provisioned_or_invalid") else StoreError(status);
    }

    method HandleRestore(fields: Option<RestoreFields>, now: u32) returns (response: Response)
      requires Valid()
      modifies backend
      ensures old(backend.trace) <= backend.trace
      ensures forall i :: |old(backend.trace)| <= i < |backend.trace| ==>
        RequestReaches(old(backend.cells), reset.View(), RestoreConfiguration(fields), now, backend.trace[i])
      ensures RequestReaches(old(backend.cells), reset.View(), RestoreConfiguration(fields), now, backend.cells)
      ensures Answers(old(backend.cells), reset.View(), RestoreConfiguration(fields), hardwareId, now, None, backend.cells, response)
      ensures backend.reliable ==>
        (response == Success <==> Grants(old(backend.cells), reset.View(), RestoreConfiguration(fields), hardwareId, now, None))
      ensures response == Error(BUSY) <==> Busy(reset.View())
    {
      hide C.WriteReaches, C.Accepted, C.Committed, C.Proposed, C.Consistent, C.LoadFrom, C.Carries, Requested, Restored;
      if reset.busy || reset.markerActive {
        return Error(BUSY);
      }
      match fields
      case None => response := Error("invalid_configuration");
      case Some(f) =>
        ghost var c := backend.cells;
        var status, verified := configurations.Write(Requested(f));
        if status == Ok {
          CarriesRestored(f, verified.value);
        }
        response := if status == Ok then Success else StoreError(status);
    }

    method HandlePrepare(version: Option<u32>, factoryScope: bool, expected: Option<Text>, now: u32, tokens: Option<Tokens>)
      returns (response: Response)
      requires Valid()
      modifies reset
      ensures ControlStep(backend.cells, old(reset.View()), PrepareReset(version, factoryScope, expected), hardwareId, now,
                          tokens, backend.cells, reset.View())
      ensures Answers(backend.cells, old(reset.View()), PrepareReset(version, factoryScope, expected), hardwareId, now,
                      tokens, backend.cells, response)
      ensures response != Error(BUSY)
    {
      reset.Cancel();
      if version != Some(2) || !factoryScope || expected.None? {
        return Error("secure_reset_v2_required");
      }
      if expected.value != hardwareId {
        return Error("hardware_identity_mismatch");
      }
      if tokens.None? {
        return Error("secure_random_unavailable");
      }
      var status, challenge := reset.Prepare(ApplicationFactory, hardwareId, expected.value, tokens.value.operationId,
                                             tokens.value.challenge, now, RESET_TTL);
      response := if status == Ok then Success else StoreError(status);
    }

    method HandleConfirm(r: Request, now: u32, tokens: Option<Tokens>) returns (response: Response)
      requires Valid() && r.ConfirmReset?
      requires r.fields.Some? ==> IsText(r.fields.value.operationId)
      modifies reset, backend
      ensures old(backend.trace) <= backend.trace
      ensures forall i :: |old(backend.trace)| <= i < |backend.trace| ==>
        RequestReaches(old(backend.cells), old(reset.View()), r, now, backend.trace[i])
      ensures RequestReaches(old(backend.cells), old(reset.View()), r, now, backend.cells)
      ensures ControlStep(old(backend.cells), old(reset.View()), r, hardwareId, now, tokens, backend.cells, reset.View())
      ensures Answers(old(backend.cells), old(reset.View()), r, hardwareId, now, tokens, backend.cells, response)
      ensures backend.reliable ==>
        (response == Success <==> Grants(old(backend.cells), old(reset.View()), r, hardwareId, now, tokens))
      ensures response != Error(BUSY)
    {
      hide ConfirmReaches, Erasing, Undecodable, Authorised, AllErased, ReadMarkerFrom;
      if r.resetVersion != Some(2) || !r.confirmFactoryScope || r.fields.None? {
        reset.Cancel();
        return Error("invalid_confirmation");
      }
      var result := reset.Confirm(Asked(r, now));
      response := if result.status == Ok then Success else StoreError(result.status);
    }

    /** Dispatch of one request. */
    method HandleRequest(r: Request, now: u32, tokens: Option<Tokens>) returns (response: Response)
      requires Valid()
      requires r.ConfirmReset? && r.fields.Some? ==> IsText(r.fields.value.operationId)
      modifies reset, backend
      ensures Valid() && old(backend.trace) <= backend.trace
      ensures forall i :: |old(backend.trace)| <= i < |backend.trace| ==>
        RequestReaches(old(backend.cells), old(reset.View()), r, now, backend.trace[i])
      ensures RequestReaches(old(backend.cells), old(reset.View()), r, now, backend.cells)
      ensures ControlStep(old(backend.cells), old(reset.View()), r, hardwareId, now, tokens, backend.cells, reset.View())
      ensures Answers(old(backend.cells), old(reset.View()), r, hardwareId, now, tokens, backend.cells, response)
      ensures backend.reliable ==>
        (response == Success <==> Grants(old(backend.cells), old(reset.View()), r, hardwareId, now, tokens))
      ensures response == Error(BUSY) <==> Busy(old(reset.View())) && (r.ProvisionIdentity? || r.RestoreConfiguration?)
    {
      match r
      case ReadState =>
        response := Success;
      case ProvisionIdentity(nodeId) =>
        hide RequestReaches;
        response := HandleProvision(nodeId, now);
      case RestoreConfiguration(fields) =>
        hide RequestReaches;
        response := HandleRestore(fields, now);
      case PrepareReset(version, factoryScope, expected) =>
        hide ControlStep;
        response := HandlePrepare(version, factoryScope, expected, now, tokens);
      case ConfirmReset(_, _, _) =>
        hide RequestReaches, ControlStep;
        response := HandleConfirm(r, now, tokens);
      case CancelReset =>
        reset.Cancel();
        response := Success;
    }

    /** The boot sequence: a fresh controller recovers, the stores are loaded, and
        a pending recovery completes once both read as factory state. */
    method Boot() returns (status: StoreStatus, identity: I.LoadResult, configuration: C.LoadResult)
      requires Valid()
      modifies this`reset, backend
      ensures Valid() && fresh(reset) && old(backend.trace) <= backend.trace
      ensures forall i :: |old(backend.trace)| <= i < |backend.trace| ==> BootReaches(old(backend.cells), backend.trace[i])
      ensures BootReaches(old(backend.cells), backend.cells)
      ensures reset.View() == FRESH.(markerActive := RESET_MARKER in backend.cells)
      ensures status == Ok ==> RESET_MARKER !in backend.cells
      ensures Stuck(old(backend.cells)) ==>
        status == ReadMarkerFrom(old(backend.cells)).status && backend.trace == old(backend.trace)
      ensures backend.reliable ==>
        && backend.cells == BootOutcome(old(backend.cells))
        && (status == Ok <==> Replayable(old(backend.cells)))
        && (RESET_MARKER in old(backend.cells) && Replayable(old(backend.cells)) ==>
              identity == I.NotLoaded(Unprovisioned) && configuration == C.LoadResult(NotFound, None))
    {
      hide FactoryErasing, Replayable, I.LoadFrom, C.LoadFrom, ReadMarkerFrom, Undecodable;
      reset := new FactoryResetController(backend);
      ghost var c := backend.cells;
      ReplayableMarker(c);
      MarkerStatus(c);
      var recovered, pending := reset.RecoverOnBoot();
      ghost var c1 := backend.cells;
      ghost var mark := |backend.trace|;
      forall i | |old(backend.trace)| <= i < mark
        ensures BootReaches(c, backend.trace[i])
      {
        assert RecoverReaches(c, backend.trace[i]) && CompleteReaches(backend.trace[i], backend.trace[i]);
      }
      status := recovered;
      identity := identities.Load();
      configuration := configurations.Load();
      if pending && recovered == Ok {
        ErasedStores(c1);
        status := reset.CompleteRecoveryOnBoot(
          identity.NotLoaded? && identity.status == Unprovisioned && configuration.status == NotFound);
      }
      forall i | mark <= i < |backend.trace|
        ensures BootReaches(c, backend.trace[i])
      {
        assert RecoverReaches(c, c1) && CompleteReaches(c1, backend.trace[i]);
      }
      assert RecoverReaches(c, c1) && CompleteReaches(c1, backend.cells);
      if RESET_MARKER in c && !Stuck(c) && backend.reliable {
        ErasedOutcome(c, c1);
        if !Replayable(c) {
          ErasedUnderMarker(c, c1);
        }
      }
    }
  }

  lemma CarriesRestored(f: RestoreFields, v: C.StoredConfiguration)
    requires C.Carries(v, Requested(f))
    ensures Restored(f, C.LoadResult(Ok, Some(v)))
  {
  }

  /** A boot that gives up on the marker touches nothing. */
  ghost predicate BootReaches(c: Cells, c': Cells) {
    if Stuck(c) then c' == c else exists c1 :: RecoverReaches(c, c1) && CompleteReaches(c1, c')
  }

  /** The memory without the keys of the factory list. */
  ghost function Erased(c: Cells): Cells {
    map k | k in c && k !in FACTORY_RESET :: c[k]
  }

  /** What a boot without backend failures makes of the memory. */
  ghost function BootOutcome(c: Cells): Cells {
    if RESET_MARKER !in c || Stuck(c) then c
    else if Replayable(c) then Erased(c) - {RESET_MARKER}
    else Erased(c)
  }

  lemma SameEverywhere(c: Cells, c': Cells)
    requires forall k: Key :: SameAt(c, c', k)
    ensures c' == c
  {
    assert forall k: Key :: k in c <==> k in c' by {
      forall k: Key
        ensures k in c <==> k in c'
      {
        assert SameAt(c, c', k);
      }
    }
    assert forall k :: k in c ==> SameAt(c, c', k);
  }

  lemma ErasedOutcome(c: Cells, c': Cells)
    requires Journalled(c, c') && AllErased(c', FACTORY_RESET)
    ensures c' - {RESET_MARKER} == Erased(c) - {RESET_MARKER}
  {
    hide Undecodable, ReadMarkerFrom;
    forall k: Key
      ensures SameAt(Erased(c) - {RESET_MARKER}, c' - {RESET_MARKER}, k)
    {
      assert k != RESET_MARKER ==> SameAt(c, c', k) || (k in FACTORY_RESET && k !in c');
    }
    SameEverywhere(Erased(c) - {RESET_MARKER}, c' - {RESET_MARKER});
  }

  lemma ErasedUnderMarker(c: Cells, c': Cells)
    requires c' - {RESET_MARKER} == Erased(c) - {RESET_MARKER} && SameAt(c, c', RESET_MARKER)
    ensures c' == Erased(c)
  {
    MarkerNotListed();
    forall k: Key
      ensures SameAt(Erased(c), c', k)
    {
      if k != RESET_MARKER {
        assert k in c' <==> k in c' - {RESET_MARKER};
        if k in c' {
          assert c'[k] == (c' - {RESET_MARKER})[k];
        }
      }
    }
    SameEverywhere(Erased(c), c');
  }

  lemma ReplayableMarker(c: Cells)
    ensures RESET_MARKER !in c ==> Replayable(c)
  {
    hide Decode;
    MarkerStatus(c);
  }

  /** With every reset key absent both stores read as factory state. */
  lemma ErasedStores(c: Cells)
    requires AllErased(c, FACTORY_RESET)
    ensures I.LoadFrom(c) == I.NotLoaded(Unprovisioned) && C.LoadFrom(c) == C.LoadResult(NotFound, None)
  {
    hide Decode;
    assert IDENTITY_A in FACTORY_RESET && IDENTITY_B in FACTORY_RESET;
    assert CONFIGURATION_A in FACTORY_RESET && CONFIGURATION_B in FACTORY_RESET;
  }
}
