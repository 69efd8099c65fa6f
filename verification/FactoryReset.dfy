/** Challenge-confirmed factory reset, journalled by a marker that the boot
    sequence replays. */
module FactoryReset {
  import opened Words
  import opened PersistentRecord
  import opened Nvm
  import NodeIdentityStore

  type Text = seq<byte>

  datatype ResetScope = ConfigurationOnly | ApplicationFactory

  datatype ResetStage = MarkerWritten | KeysCleared {
    function Code(): byte {
      if this == MarkerWritten then 1 else 2
    }
  }

  datatype ResetChallenge = ResetChallenge(
    pending: bool, scope: ResetScope, challenge: Text, operationId: Text, hardwareId: Text, expiresAt: u32)

  datatype ResetResult = ResetResult(status: StoreStatus, deletedCount: nat, failedCount: nat)

  datatype Confirmation = Confirmation(
    scope: ResetScope, hardwareId: Text, operationId: Text, challenge: Text, now: u32)

  const NO_CHALLENGE := ResetChallenge(false, ConfigurationOnly, [], [], [], 0)
  const TOKEN_LENGTH: nat := 32
  const MINIMUM_TTL: nat := 1000
  const MAXIMUM_TTL: nat := 300000

  // ----- The 32-bit clock -----

  /** The signed comparison of the wrapped difference. */
  predicate Expired(now: u32, expiresAt: u32) {
    Sub32(now, expiresAt) < 0x8000_0000
  }

  /** Expiry agrees with unwrapped time exactly while the time past the deadline,
      modulo the clock period, is below half of it; so always before ttl + 2^31. */
  lemma ExpiryAgrees(start: nat, elapsed: nat, ttl: nat)
    requires MINIMUM_TTL <= ttl <= MAXIMUM_TTL
    ensures (Expired((start + elapsed) % WORD, Add32(start % WORD, ttl)) <==> elapsed >= ttl)
       <==> (elapsed < ttl || (elapsed - ttl) % WORD < 0x8000_0000)
    ensures elapsed < ttl + 0x8000_0000 ==>
      (Expired((start + elapsed) % WORD, Add32(start % WORD, ttl)) <==> elapsed >= ttl)
  {
    var d := Sub32((start + elapsed) % WORD, Add32(start % WORD, ttl));
    WrappedDifference(start, elapsed, ttl);
    assert d == (elapsed - ttl) % WORD;
    if elapsed < ttl {
      assert d == elapsed - ttl + WORD;
    } else if elapsed < ttl + 0x8000_0000 {
      assert d == elapsed - ttl;
    }
  }

  lemma WrappedDifference(start: nat, elapsed: nat, ttl: nat)
    requires ttl <= MAXIMUM_TTL
    ensures Sub32((start + elapsed) % WORD, Add32(start % WORD, ttl)) == (elapsed - ttl) % WORD
  {
    ModDifference(start + elapsed, start % WORD + ttl);
    ModShift(elapsed - ttl, start / WORD);
  }

  // ----- The marker -----

  datatype MarkerResult = Marker(operationId: Text, stage: ResetStage) | NoMarker(status: StoreStatus)

  function MarkerPayload(operationId: Text, stage: ResetStage): (p: seq<byte>)
    requires |operationId| == TOKEN_LENGTH
    ensures |p| == 35
  {
    [1, stage.Code(), 32] + operationId
  }

  function MarkerRecord(operationId: Text, stage: ResetStage): seq<byte>
    requires |operationId| == TOKEN_LENGTH
  {
    Envelope(StoreMetadata, 1, MarkerPayload(operationId, stage))
  }

  function ReadMarkerFrom(c: Cells): MarkerResult {
    match ReadCell(c, RESET_MARKER, MAX_RECORD)
    case Unread(s) => NoMarker(s)
    case Found(data) =>
      match Decode(data, StoreMetadata)
      case Rejected(s) => NoMarker(s)
      case Decoded(view) =>
        var p := view.payload;
        if |p| != 35 || p[0] != 1 || p[2] != 32 || p[1] < 1 || p[1] > 2 then NoMarker(Corrupt)
        else Marker(NodeIdentityStore.CString(p[3..]), if p[1] == 1 then MarkerWritten else KeysCleared)
  }

  /** A string of C characters: no terminator inside. */
  predicate IsText(t: Text) {
    forall i :: 0 <= i < |t| ==> t[i] != 0
  }

  lemma ReadMarkerBack(c: Cells, operationId: Text, stage: ResetStage)
    requires |operationId| == TOKEN_LENGTH && IsText(operationId)
    ensures ReadMarkerFrom(c[RESET_MARKER := MarkerRecord(operationId, stage)]) == Marker(operationId, stage)
  {
    hide Decode, Envelope;
    var p := MarkerPayload(operationId, stage);
    DecodeEncode(StoreMetadata, 1, p, StoreMetadata);
    assert p[3..] == operationId;
    NodeIdentityStore.CStringWithoutZero(operationId);
  }

  lemma MarkerStatus(c: Cells)
    ensures ReadMarkerFrom(c) == NoMarker(NotFound) <==> RESET_MARKER !in c
    ensures ReadMarkerFrom(c).NoMarker? ==> ReadMarkerFrom(c).status != Ok
  {
    hide Get32, Get16;
  }

  // ----- Contents during a reset -----

  ghost predicate SameAt(c: Cells, c': Cells, k: Key) {
    (k in c <==> k in c') && (k in c ==> c'[k] == c[k])
  }

  /** c' is c with some of the given keys removed and nothing else changed. */
  ghost predicate Erasing(c: Cells, keys: seq<Key>, c': Cells) {
    forall k {:trigger SameAt(c, c', k)} :: SameAt(c, c', k) || (k in keys && k !in c')
  }

  ghost predicate AllErased(c: Cells, keys: seq<Key>) {
    forall k :: k in keys ==> k !in c
  }

  /** Apart from the marker, only keys of the factory list are ever removed, and
      nothing is changed or added. */
  ghost predicate FactoryErasing(c: Cells, c': Cells) {
    forall k {:trigger SameAt(c, c', k)} ::
      k != RESET_MARKER ==> SameAt(c, c', k) || (k in FACTORY_RESET && k !in c')
  }

  /** The marker names an operation by a full-length token. */
  ghost predicate SoundMarker(c: Cells) {
    ReadMarkerFrom(c).Marker? && |ReadMarkerFrom(c).operationId| == TOKEN_LENGTH
  }

  /** A marker is stored: the one from before, a sound one, or torn bytes. */
  ghost predicate MarkerStored(c: Cells, c': Cells) {
    RESET_MARKER in c' && (SameAt(c, c', RESET_MARKER) || SoundMarker(c') || Undecodable(c'[RESET_MARKER]))
  }

  /** A marker that says the keys are cleared tells the truth. */
  ghost predicate Honest(c: Cells) {
    ReadMarkerFrom(c).Marker? && ReadMarkerFrom(c).stage == KeysCleared ==> AllErased(c, FACTORY_RESET)
  }

  /** Keys of the factory list may be gone, nothing else changed, a marker is stored,
      and it is honest if the one before was. */
  ghost predicate Journalled(c: Cells, c': Cells) {
    FactoryErasing(c, c') && MarkerStored(c, c') && (Honest(c) ==> Honest(c'))
  }

  /** Everything a confirmed application reset, complete or cut off anywhere, leaves. */
  ghost predicate ConfirmReaches(c: Cells, c': Cells) {
    c' == c || Journalled(c, c')
  }

  /** The marker reads as neither absent, valid nor corrupt: recovery gives up on it. */
  predicate Stuck(c: Cells) {
    ReadMarkerFrom(c).NoMarker? && ReadMarkerFrom(c).status !in {NotFound, Corrupt, IntegrityFailed}
  }

  ghost predicate RecoverReaches(c: Cells, c': Cells) {
    if RESET_MARKER in c && !Stuck(c) then Journalled(c, c') else c' == c
  }

  /** What recovery leaves, complete or not, and what its success means. */
  ghost predicate Recovered(c: Cells, status: StoreStatus, c': Cells) {
    && RecoverReaches(c, c')
    && (status == Ok && RESET_MARKER in c ==> AllErased(c', FACTORY_RESET))
    && (Stuck(c) ==> status == ReadMarkerFrom(c).status)
  }

  ghost predicate CompleteReaches(c: Cells, c': Cells) {
    c' == c || (AllErased(c, FACTORY_RESET) && c' == c - {RESET_MARKER})
  }

  /** The confirmation matches the pending challenge and is in time. */
  predicate Authorised(pending: ResetChallenge, a: Confirmation) {
    && pending.pending && pending.scope == a.scope && pending.hardwareId == a.hardwareId
    && pending.operationId == a.operationId && pending.challenge == a.challenge
    && !Expired(a.now, pending.expiresAt)
  }

  datatype Controller = Controller(challenge: ResetChallenge, busy: bool, markerActive: bool, rebootRequired: bool)

  const FRESH := Controller(NO_CHALLENGE, false, false, false)

  /** The arguments of prepare that are accepted in the given state. */
  predicate PrepareAccepted(s: Controller, hardwareId: Text, expected: Text, operationId: Text, challenge: Text, ttl: u32) {
    && MINIMUM_TTL <= ttl <= MAXIMUM_TTL && !s.challenge.pending && !s.markerActive && hardwareId == expected
    && |operationId| == TOKEN_LENGTH && |challenge| == TOKEN_LENGTH
  }

  /** The limits that a prepare otherwise in order has to meet. */
  lemma PrepareLimits(s: Controller, hardwareId: Text, operationId: Text, challenge: Text, ttl: u32)
    requires !s.challenge.pending && !s.markerActive
    ensures PrepareAccepted(s, hardwareId, hardwareId, operationId, challenge, ttl) <==>
      1000 <= ttl <= 300000 && |operationId| == 32 && |challenge| == 32
  {
  }

  class FactoryResetController {
    const backend: NvmBackend
    var challenge: ResetChallenge
    var busy: bool
    var markerActive: bool
    var rebootRequired: bool

    ghost function View(): Controller
      reads this
    {
      Controller(challenge, busy, markerActive, rebootRequired)
    }

    constructor (backend: NvmBackend)
      ensures this.backend == backend && View() == FRESH
    {
      this.backend := backend;
      challenge, busy, markerActive, rebootRequired := NO_CHALLENGE, false, false, false;
    }

    method Prepare(scope: ResetScope, hardwareId: Text, expected: Text, operationId: Text, token: Text, now: u32, ttl: u32)
      returns (status: StoreStatus, output: ResetChallenge)
      modifies this
      ensures View() == old(View()).(challenge := challenge)
      ensures status == if PrepareAccepted(old(View()), hardwareId, expected, operationId, token, ttl) then Ok else InvalidArgument
      ensures challenge == if status == Ok
        then ResetChallenge(true, scope, token, operationId, hardwareId, Add32(now, ttl)) else old(challenge)
      ensures status == Ok ==> output == challenge
    {
      output := NO_CHALLENGE;
      if ttl < MINIMUM_TTL || ttl > MAXIMUM_TTL || challenge.pending || markerActive || hardwareId != expected
         || |operationId| != TOKEN_LENGTH || |token| != TOKEN_LENGTH {
        return InvalidArgument, output;
      }
      challenge := ResetChallenge(true, scope, token, operationId, hardwareId, Add32(now, ttl));
      return Ok, challenge;
    }

    method Cancel()
      modifies this
      ensures View() == old(View()).(challenge := old(challenge).(pending := false))
    {
      challenge := challenge.(pending := false);
    }

    method ReadMarker() returns (r: MarkerResult)
      ensures r == ReadMarkerFrom(backend.cells)
    {
      hide Decode, NodeIdentityStore.CString;
      var read := backend.Read(RESET_MARKER, MAX_RECORD);
      if read.Unread? {
        return NoMarker(read.status);
      }
      var decoded := Decode(read.data, StoreMetadata);
      if decoded.Rejected? {
        return NoMarker(decoded.status);
      }
      var p := decoded.view.payload;
      if |p| != 35 || p[0] != 1 || p[2] != 32 || p[1] < 1 || p[1] > 2 {
        return NoMarker(Corrupt);
      }
      r := Marker(NodeIdentityStore.CString(p[3..]), if p[1] == 1 then MarkerWritten else KeysCleared);
    }

    /** Writes and verifies the marker: one backend step. */
    method WriteMarker(operationId: Text, stage: ResetStage) returns (status: StoreStatus)
      requires IsText(operationId)
      modifies backend
      ensures |operationId| != TOKEN_LENGTH ==>
        status == InvalidArgument && backend.cells == old(backend.cells) && backend.trace == old(backend.trace)
      ensures |operationId| == TOKEN_LENGTH ==>
        && WriteStep(old(backend.cells), RESET_MARKER, MarkerRecord(operationId, stage), status, backend.cells)
        && backend.trace == old(backend.trace) + [backend.cells]
        && (backend.reliable ==> status == Ok)
    {
      hide Decode, Envelope, Undecodable, ReadMarkerFrom;
      if |operationId| != TOKEN_LENGTH {
        return InvalidArgument;
      }
      var record := new byte[MAX_RECORD];
      var encoded, size := EncodePersistentRecord(StoreMetadata, 1, 0, MarkerPayload(operationId, stage), record);
      ReadMarkerBack(backend.cells, operationId, stage);
      status := backend.Write(RESET_MARKER, record[..size]);
      if status != Ok {
        return;
      }
      var verified := ReadMarker();
      status := if verified == Marker(operationId, stage) then Ok else ReadbackFailed;
    }

    method ResetKeysAbsent() returns (r: bool)
      ensures r == AllErased(backend.cells, FACTORY_RESET)
    {
      for index := 0 to |FACTORY_RESET|
        invariant forall i :: 0 <= i < index ==> FACTORY_RESET[i] !in backend.cells
      {
        var read := backend.Read(FACTORY_RESET[index], 1);
        if read != Unread(NotFound) {
          assert FACTORY_RESET[index] in FACTORY_RESET;
          return false;
        }
      }
      r := true;
    }

    /** Removes and reads back every key, going on after a failure. */
    method EraseEach(keys: seq<Key>) returns (deleted: nat, failed: nat)
      modifies backend
      ensures old(backend.trace) <= backend.trace && deleted + failed == |keys|
      ensures forall i :: |old(backend.trace)| <= i < |backend.trace| ==> Erasing(old(backend.cells), keys, backend.trace[i])
      ensures Erasing(old(backend.cells), keys, backend.cells)
      ensures failed == 0 ==> AllErased(backend.cells, keys)
      ensures backend.reliable ==> failed == 0
    {
      deleted, failed := 0, 0;
      for index := 0 to |keys|
        invariant old(backend.trace) <= backend.trace && deleted + failed == index
        invariant forall i :: |old(backend.trace)| <= i < |backend.trace| ==> Erasing(old(backend.cells), keys, backend.trace[i])
        invariant Erasing(old(backend.cells), keys, backend.cells)
        invariant failed == 0 ==> forall i :: 0 <= i < index ==> keys[i] !in backend.cells
        invariant backend.reliable ==> failed == 0
      {
        ghost var c := backend.cells;
        var removed := backend.Remove(keys[index]);
        ErasingStep(old(backend.cells), keys, c, keys[index], removed, backend.cells);
        var check := backend.Read(keys[index], 1);
        if removed == Ok && check == Unread(NotFound) {
          deleted := deleted + 1;
        } else {
          failed := failed + 1;
        }
      }
    }

    /** Removes the keys in order and stops at the first failure. */
    method EraseUntilFailure(keys: seq<Key>) returns (status: StoreStatus)
      modifies backend
      ensures old(backend.trace) <= backend.trace
      ensures forall i :: |old(backend.trace)| <= i < |backend.trace| ==> Erasing(old(backend.cells), keys, backend.trace[i])
      ensures Erasing(old(backend.cells), keys, backend.cells)
      ensures status in {Ok, WriteFailed}
      ensures status == Ok ==> AllErased(backend.cells, keys)
      ensures backend.reliable ==> status == Ok
    {
      status := Ok;
      for index := 0 to |keys|
        invariant old(backend.trace) <= backend.trace && status == Ok
        invariant forall i :: |old(backend.trace)| <= i < |backend.trace| ==> Erasing(old(backend.cells), keys, backend.trace[i])
        invariant Erasing(old(backend.cells), keys, backend.cells)
        invariant forall i :: 0 <= i < index ==> keys[i] !in backend.cells
      {
        ghost var c := backend.cells;
        status := backend.Remove(keys[index]);
        ErasingStep(old(backend.cells), keys, c, keys[index], status, backend.cells);
        if status != Ok {
          return;
        }
      }
    }

    /** Confirmation consumes the challenge whatever happens; only an authorised
        one reaches the backend, and then only through the journal. */
    method Confirm(a: Confirmation) returns (result: ResetResult)
      requires IsText(a.operationId)
      modifies this, backend
      ensures old(backend.trace) <= backend.trace
      ensures challenge == old(challenge).(pending := false) && busy == if Authorised(old(challenge), a) then false else old(busy)
      ensures !Authorised(old(challenge), a) ==>
        && result == ResetResult(InvalidArgument, 0, 0) && backend.cells == old(backend.cells)
        && backend.trace == old(backend.trace) && markerActive == old(markerActive) && rebootRequired == old(rebootRequired)
      ensures Authorised(old(challenge), a) && a.scope == ConfigurationOnly ==>
        && (forall i :: |old(backend.trace)| <= i < |backend.trace| ==>
              Erasing(old(backend.cells), CONFIGURATION_RESET, backend.trace[i]))
        && Erasing(old(backend.cells), CONFIGURATION_RESET, backend.cells)
        && (result.status == Ok ==> AllErased(backend.cells, CONFIGURATION_RESET))
        && result.deletedCount + result.failedCount == |CONFIGURATION_RESET|
        && result.status == (if result.failedCount == 0 then Ok else WriteFailed)
        && markerActive == old(markerActive) && rebootRequired == old(rebootRequired)
      ensures Authorised(old(challenge), a) && a.scope == ApplicationFactory ==>
        && (forall i :: |old(backend.trace)| <= i < |backend.trace| ==>
              ConfirmReaches(old(backend.cells), backend.trace[i]))
        && ConfirmReaches(old(backend.cells), backend.cells)
        && (result.status == Ok ==>
              && AllErased(backend.cells, FACTORY_RESET) && result.deletedCount == |FACTORY_RESET|
              && ReadMarkerFrom(backend.cells) == Marker(a.operationId, KeysCleared) && rebootRequired)
        && (backend.cells != old(backend.cells) && !markerActive ==> Torn(old(backend.cells), RESET_MARKER, backend.cells))
        && (old(markerActive) ==> markerActive)
        && (result.deletedCount + result.failedCount == 0 ==>
              result.status != Ok && markerActive == old(markerActive)
              && (backend.cells == old(backend.cells) || Torn(old(backend.cells), RESET_MARKER, backend.cells)))
        && (result.deletedCount + result.failedCount != 0 ==> markerActive)
      ensures result.status in {Ok, WriteFailed, InvalidArgument}
      ensures a.scope == ApplicationFactory && |a.operationId| != TOKEN_LENGTH ==> result.status == InvalidArgument
      ensures backend.reliable && Authorised(old(challenge), a) && |a.operationId| == TOKEN_LENGTH ==> result.status == Ok
    {
      hide Undecodable, ReadMarkerFrom, Expired, ConfirmReaches, Erasing, AllErased;
      result := ResetResult(InvalidArgument, 0, 0);
      if !challenge.pending {
        assert challenge == challenge.(pending := false);
        return;
      }
      var pending := challenge;
      challenge := challenge.(pending := false);
      if pending.scope != a.scope || pending.hardwareId != a.hardwareId || pending.operationId != a.operationId
         || pending.challenge != a.challenge || Expired(a.now, pending.expiresAt) {
        return;
      }
      busy := true;
      if a.scope == ConfigurationOnly {
        var deleted, failed := EraseEach(CONFIGURATION_RESET);
        busy := false;
        return ResetResult(if failed != 0 then WriteFailed else Ok, deleted, failed);
      }
      result := EraseJournalled(a.operationId);
      busy := false;
    }

    /** The journalled erasure of an application reset: marker, keys, marker again. */
    method EraseJournalled(operationId: Text) returns (result: ResetResult)
      requires IsText(operationId)
      modifies this`markerActive, this`rebootRequired, backend
      ensures old(backend.trace) <= backend.trace
      ensures forall i :: |old(backend.trace)| <= i < |backend.trace| ==> ConfirmReaches(old(backend.cells), backend.trace[i])
      ensures ConfirmReaches(old(backend.cells), backend.cells)
      ensures result.status == Ok ==>
        && AllErased(backend.cells, FACTORY_RESET) && result.deletedCount == |FACTORY_RESET|
        && ReadMarkerFrom(backend.cells) == Marker(operationId, KeysCleared) && rebootRequired
      ensures result.deletedCount + result.failedCount == 0 ==>
        && result.status != Ok && markerActive == old(markerActive)
        && (backend.cells == old(backend.cells) || Torn(old(backend.cells), RESET_MARKER, backend.cells))
      ensures result.deletedCount + result.failedCount != 0 ==> markerActive
      ensures result.status in {Ok, WriteFailed, InvalidArgument}
      ensures |operationId| != TOKEN_LENGTH ==> result == ResetResult(InvalidArgument, 0, 0) && backend.cells == old(backend.cells)
      ensures backend.reliable && |operationId| == TOKEN_LENGTH ==> result.status == Ok
    {
      hide Decode, Envelope, Undecodable, ReadMarkerFrom, MarkerRecord, Journalled, Erasing;
      ghost var c := backend.cells;
      var status := WriteMarker(operationId, MarkerWritten);
      if |operationId| == TOKEN_LENGTH {
        MarkerWriteKept(c, operationId, MarkerWritten, status, backend.cells);
      }
      if status != Ok {
        return ResetResult(status, 0, 0);
      }
      markerActive := true;
      ghost var c1 := backend.cells;
      JournalledMarker(c, c1);
      ghost var mark := |backend.trace|;
      var deleted, failed := EraseEach(FACTORY_RESET);
      forall x | Erasing(c1, FACTORY_RESET, x)
        ensures Journalled(c, x)
      {
        ErasureKept(c1, x);
        JournalledTransitive(c, c1, x);
      }
      if failed != 0 {
        return ResetResult(WriteFailed, deleted, failed);
      }
      ghost var c2 := backend.cells;
      JournalledMarker(c, c2);
      JournalledRefl(c2);
      ReadMarkerBack(c2, operationId, KeysCleared);
      status := WriteMarker(operationId, KeysCleared);
      MarkerWriteKept(c2, operationId, KeysCleared, status, backend.cells);
      JournalledTransitive(c, c2, backend.cells);
      if status == Ok {
        rebootRequired := true;
      }
      result := ResetResult(status, deleted, failed);
    }

    /** Boot recovery: with a marker, the reset is carried through before anything else. */
    method RecoverOnBoot() returns (status: StoreStatus, recoveryPending: bool)
      modifies this`markerActive, backend
      ensures old(backend.trace) <= backend.trace
      ensures forall i :: |old(backend.trace)| <= i < |backend.trace| ==> RecoverReaches(old(backend.cells), backend.trace[i])
      ensures Recovered(old(backend.cells), status, backend.cells)
      ensures Stuck(old(backend.cells)) ==> backend.trace == old(backend.trace)
      ensures markerActive == (RESET_MARKER in backend.cells)
      ensures recoveryPending ==> status == Ok
      ensures status == Ok ==> recoveryPending == (RESET_MARKER in backend.cells)
      ensures recoveryPending ==> AllErased(backend.cells, FACTORY_RESET)
      ensures backend.reliable ==> (status == Ok <==> Replayable(old(backend.cells)))
      ensures backend.reliable && RESET_MARKER in old(backend.cells) && !Stuck(old(backend.cells)) ==>
        AllErased(backend.cells, FACTORY_RESET)
      ensures !Replayable(old(backend.cells)) ==> SameAt(old(backend.cells), backend.cells, RESET_MARKER)
    {
      hide Decode, Envelope, Undecodable, ReadMarkerFrom, MarkerRecord, Journalled, Erasing;
      ghost var c := backend.cells;
      MarkerStatus(c);
      var read := ReadMarker();
      if read == NoMarker(NotFound) {
        markerActive := false;
        return Ok, false;
      }
      markerActive := true;
      JournalledRefl(c);
      if read.NoMarker? && read.status != Corrupt && read.status != IntegrityFailed {
        NotReplayable(c);
        return read.status, false;
      }
      var absent := ResetKeysAbsent();
      if !absent {
        status := EraseUntilFailure(FACTORY_RESET);
        forall x | Erasing(c, FACTORY_RESET, x)
          ensures Journalled(c, x)
        {
          ErasureKept(c, x);
        }
        ErasureKeepsMarker(c, backend.cells);
        JournalledMarker(c, backend.cells);
        if status != Ok {
          return status, false;
        }
        absent := ResetKeysAbsent();
        if !absent {
          return IntegrityFailed, false;
        }
        if read.Marker? {
          ghost var c2 := backend.cells;
          MarkerText(c);
          JournalledRefl(c2);
          status := WriteMarker(read.operationId, KeysCleared);
          if |read.operationId| == TOKEN_LENGTH {
            MarkerWriteKept(c2, read.operationId, KeysCleared, status, backend.cells);
            JournalledTransitive(c, c2, backend.cells);
            JournalledMarker(c, backend.cells);
          }
          if status != Ok {
            return status, false;
          }
        }
      }
      return Ok, true;
    }

    /** Completion: the marker goes only once every reset key is verified absent. */
    method CompleteRecoveryOnBoot(ready: bool) returns (status: StoreStatus)
      modifies this`markerActive, backend
      ensures old(backend.trace) <= backend.trace
      ensures forall i :: |old(backend.trace)| <= i < |backend.trace| ==> CompleteReaches(old(backend.cells), backend.trace[i])
      ensures CompleteReaches(old(backend.cells), backend.cells)
      ensures status == Ok ==>
        && old(markerActive) && ready && AllErased(old(backend.cells), FACTORY_RESET)
        && RESET_MARKER !in backend.cells && !markerActive
      ensures status != Ok ==> backend.cells == old(backend.cells) && markerActive == old(markerActive)
      ensures backend.reliable ==>
        (status == Ok <==> old(markerActive) && ready && AllErased(old(backend.cells), FACTORY_RESET))
    {
      var absent := ResetKeysAbsent();
      if !markerActive || !ready || !absent {
        return IntegrityFailed;
      }
      status := backend.Remove(RESET_MARKER);
      if status != Ok {
        return;
      }
      var read := backend.Read(RESET_MARKER, 1);
      if read != Unread(NotFound) {
        return ReadbackFailed;
      }
      markerActive := false;
    }
  }

  /** The contents from which a boot without backend failures completes recovery. */
  ghost predicate Replayable(c: Cells) {
    match ReadMarkerFrom(c)
    case Marker(operationId, _) => |operationId| == TOKEN_LENGTH || AllErased(c, FACTORY_RESET)
    case NoMarker(status) => status in {NotFound, Corrupt, IntegrityFailed}
  }

  lemma NotReplayable(c: Cells)
    requires Stuck(c)
    ensures !Replayable(c)
  {
    hide ReadMarkerFrom;
  }

  lemma MarkerText(c: Cells)
    requires ReadMarkerFrom(c).Marker?
    ensures IsText(ReadMarkerFrom(c).operationId)
  {
    hide Decode;
    var data := c[RESET_MARKER];
    CStringIsText(Decode(data, StoreMetadata).view.payload[3..]);
  }

  lemma {:induction false} CStringIsText(s: seq<byte>)
    ensures IsText(NodeIdentityStore.CString(s))
    decreases |s|
  {
    if s != [] && s[0] != 0 {
      CStringIsText(s[1..]);
    }
  }

  // ----- Steps of the journal -----

  lemma ErasingStep(b: Cells, keys: seq<Key>, c: Cells, key: Key, status: StoreStatus, c': Cells)
    requires Erasing(b, keys, c) && key in keys && RemoveStep(c, key, status, c')
    ensures Erasing(b, keys, c')
    ensures forall k :: k !in c ==> k !in c'
    ensures status == Ok ==> key !in c'
  {
    forall k
      ensures SameAt(b, c', k) || (k in keys && k !in c')
    {
      assert SameAt(b, c, k) || (k in keys && k !in c);
    }
  }

  lemma FactoryErasingRefl(c: Cells)
    ensures FactoryErasing(c, c)
  {
  }

  /** The marker is read from its own key alone. */
  lemma MarkerIsLocal(c: Cells, c': Cells)
    requires SameAt(c, c', RESET_MARKER)
    ensures ReadMarkerFrom(c') == ReadMarkerFrom(c)
  {
    hide Decode;
  }

  lemma MarkerNotListed()
    ensures RESET_MARKER !in FACTORY_RESET
  {
  }

  lemma JournalledMarker(c: Cells, c': Cells)
    requires Journalled(c, c')
    ensures RESET_MARKER in c'
  {
  }

  lemma JournalledRefl(c: Cells)
    requires RESET_MARKER in c
    ensures Journalled(c, c)
  {
  }

  /** Writing the marker, complete, failed or torn, keeps everything else. */
  lemma MarkerWriteKept(c: Cells, operationId: Text, stage: ResetStage, status: StoreStatus, c': Cells)
    requires |operationId| == TOKEN_LENGTH && IsText(operationId)
    requires WriteStep(c, RESET_MARKER, MarkerRecord(operationId, stage), status, c')
    requires stage == KeysCleared ==> AllErased(c, FACTORY_RESET)
    ensures c' == c || Journalled(c, c')
    ensures status == Ok ==> Journalled(c, c')
    ensures AllErased(c, FACTORY_RESET) ==> AllErased(c', FACTORY_RESET)
  {
    hide Undecodable, ReadMarkerFrom, MarkerRecord;
    MarkerNotListed();
    ReadMarkerBack(c, operationId, stage);
    forall k | k != RESET_MARKER
      ensures SameAt(c, c', k)
    {
    }
    if status != Ok && c' != c {
      UndecodableReadsAsNone(c');
    }
  }

  lemma UndecodableReadsAsNone(c: Cells)
    requires RESET_MARKER in c && Undecodable(c[RESET_MARKER])
    ensures ReadMarkerFrom(c).NoMarker?
  {
    hide Decode;
  }

  lemma JournalledTransitive(c: Cells, c1: Cells, c': Cells)
    requires Journalled(c, c1) && Journalled(c1, c')
    ensures Journalled(c, c')
  {
    hide Undecodable, ReadMarkerFrom;
    if SameAt(c1, c', RESET_MARKER) {
      MarkerIsLocal(c1, c');
    }
    forall k | k != RESET_MARKER
      ensures SameAt(c, c', k) || (k in FACTORY_RESET && k !in c')
    {
      assert SameAt(c, c1, k) || (k in FACTORY_RESET && k !in c1);
      assert SameAt(c1, c', k) || (k in FACTORY_RESET && k !in c');
    }
  }

  lemma ErasureKeepsMarker(c: Cells, c': Cells)
    requires Erasing(c, FACTORY_RESET, c')
    ensures SameAt(c, c', RESET_MARKER)
  {
    MarkerNotListed();
  }

  /** Erasing the factory keys keeps the marker. */
  lemma ErasureKept(c: Cells, c': Cells)
    requires RESET_MARKER in c && Erasing(c, FACTORY_RESET, c')
    ensures Journalled(c, c')
  {
    hide Undecodable, ReadMarkerFrom;
    MarkerNotListed();
    assert SameAt(c, c', RESET_MARKER);
    MarkerIsLocal(c, c');
    assert forall k :: k in FACTORY_RESET ==> SameAt(c, c', k) || k !in c';
  }
}
