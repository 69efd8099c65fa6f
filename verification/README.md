# Sensor node and gateway: verified model

A Dafny model of the three stateful cores of a battery-powered vibration sensor
node and its gateway, with proofs over every input and every run.

- **Crash-safe persistence and factory reset** (`Words`, `Bits`, `Crc32`,
  `PersistentRecord`, `Nvm`, `ConfigurationStore`, `NodeIdentityStore`,
  `FactoryReset`, `Bootstrap`, `NodeRuns`, `StoreRuns`, `ResetLimits`). CRC-framed records in
  A/B slots chosen by generation parity, a write-once identity, and a reset that
  a marker journals and the boot sequence replays. The backend is an object whose
  ghost trace holds the contents after each modifying step; a contract about
  every element of the trace is a statement about power loss at every step. A
  write may complete, fail cleanly, or be torn (its key then holds bytes that
  decode as no record); a removal may complete or fail cleanly. Methods promise
  which contents are reachable, and `NodeRuns` and `StoreRuns` reason about all
  runs of requests, boots and power losses over those relations.
- **Vibration pipeline** (`BitReversal`, `Fft`, `Spectrum`, `SpectrumBounds`,
  `ToneLaw`, `Features`, `DoubleBuffer`, `Stalls`, `WindowAssembly`,
  `VibrationSummary`, `TelemetryParser`, `SummaryJson`, `RateEstimator`, over `Complex` and `Reals`). FIFO batches, window buffers,
  time-domain statistics, the in-place transform, the one-line summary and the
  gateway's reading of it. Floating-point numbers are exact reals; `sqrt`, the
  window function and the roots of unity are parameters, constrained by
  r * r = v, a positive window sum, root(2) = -1 and root(2L)^2 = root(L); the
  amplitude bounds also use that no window weight is negative.
- **Baseline learning and condition state** (`BaselineStatistics`,
  `VibrationCondition`, `ConditionRuns`, `LearnedWindows`). Running statistics, freezing, versioned
  relearning and hysteresis, as the gateway's service keeps them.

`Sha256`, `TelemetryBuffer` and `Filters` are refinement proofs of three smaller
components; `Sha256Laws` says what the functions and constants of the standard are
bit by bit and by their origin. Objects the source updates in place are classes proved against
functions on values; the lemmas about whole runs are about those functions.

## What the code does not promise

Three properties one would expect fail in the code as written. Each is kept as
it is, shown by a lemma, and given its exact condition.

- A boot without failures completes a pending reset if and only if the marker is
  replayable (`Bootstrap.SensorNode.Boot`). Every marker that decodes is
  (`NodeRuns.StoredMarkersReplay`). A torn marker that is too long, or carries the
  record magic with a foreign version (`ResetLimits.StuckBytes`), is given up on:
  from then on no boot replays or removes it and no request changes the memory
  (`NodeRuns.StuckMarkerFreezesNode`).
- Writes are refused while a decodable marker is stored
  (`NodeRuns.MarkedNodeRefusesWrites`), but a torn marker write leaves the guard
  open until the next boot. A configuration committed meanwhile survives a boot
  without failures if and only if the marker is one of those given up on; else that
  boot erases it (`ResetLimits.TornMarkerDecidesLaterWrite`,
  `ResetLimits.CommittedRestoreIsLost`).
- The summary encoder accepts every positive rate up to 500 Hz, while the gateway
  rejects the rate field 0, so a summary is accepted only from 0.05 Hz on
  (`TelemetryParser.SummaryRoundTrip`). The rate estimator stays far above that
  (`RateEstimator.EstimatedWindowAccepted`).

## Model

| member | source | states |
|---|---|---|
| `Crc32.PersistentCrc32` | sensor_package/firmware/xiao_mg24_sensor_node/persistent_record.cpp:12-16 | The nested byte and bit loops compute the CRC-32 of the data, for every length. |
| `Crc32.ByteStepIsTableUpdate` | sensor_package/firmware/xiao_mg24_sensor_node/persistent_record.cpp:14 | Eight bit steps are the table-driven update of section 8 of RFC 1952, for every register and byte. |
| `Crc32.BitStepInjective` | sensor_package/firmware/xiao_mg24_sensor_node/persistent_record.cpp:14 | One bit step is injective on 32-bit registers. |
| `Crc32.RegisterInjective` | sensor_package/firmware/xiao_mg24_sensor_node/persistent_record.cpp:12-16 | Two registers that differ still differ after any common suffix. |
| `Crc32.RegisterOfRun` | sensor_package/firmware/xiao_mg24_sensor_node/persistent_record.cpp:12-16 | A run of up to four bytes acts on the register as one 32-bit word combined by exclusive or (linearity of the step). |
| `Crc32.BurstDetected` | sensor_package/firmware/xiao_mg24_sensor_node/persistent_record.cpp:12-16 | Replacing up to four consecutive bytes anywhere in any message always changes its checksum. |
| `Crc32.PolynomialCoefficient` | sensor_package/firmware/xiao_mg24_sensor_node/persistent_record.cpp:14 | The feedback word has exactly the exponents of the generator of section 8 of RFC 1952. |
| `Crc32.StepMultipliesByX` | sensor_package/firmware/xiao_mg24_sensor_node/persistent_record.cpp:14 | One bit step multiplies the register, as a polynomial, by x modulo the generator. |
| `Crc32.ChecksumInverts` | sensor_package/firmware/xiao_mg24_sensor_node/persistent_record.cpp:13-15 | The register starts with all ones and the checksum is its complement. |
| `PersistentRecord.LaterGenerationIsNewer` | sensor_package/firmware/xiao_mg24_sensor_node/persistent_record.cpp:17 | A generation reached by n increments, 0 < n < 2^31, is newer and not older, across the 2^32 wrap (serial arithmetic of section 3.2 of RFC 1982). |
| `PersistentRecord.EncodePersistentRecord` | sensor_package/firmware/xiao_mg24_sensor_node/persistent_record.cpp:19-29 | Exact status for every argument; on success the buffer starts with the envelope and its remainder is untouched; on failure nothing is written. |
| `PersistentRecord.DecodeEncode` | sensor_package/firmware/xiao_mg24_sensor_node/persistent_record.cpp:19-41 | Decoding an encoding returns its type, generation and payload, and is refused as Corrupt under every other expected type. |
| `PersistentRecord.EncodeDecode` | sensor_package/firmware/xiao_mg24_sensor_node/persistent_record.cpp:19-41 | Any bytes that decode are exactly the encoding of their own view: the codec is canonical. |
| `PersistentRecord.BurstRejected` | sensor_package/firmware/xiao_mg24_sensor_node/persistent_record.cpp:30-41 | A change confined to up to four consecutive bytes of the payload, or of the first 20 header bytes, of a valid record is rejected under every type. |
| `PersistentRecord.ByteChangeRejected` | sensor_package/firmware/xiao_mg24_sensor_node/persistent_record.cpp:30-41 | A change of any one byte of a valid record, the header checksum included, is rejected. |
| `PersistentRecord.PayloadBurstStatus` | sensor_package/firmware/xiao_mg24_sensor_node/persistent_record.cpp:38-39 | A change of up to four consecutive payload bytes is reported as IntegrityFailed. |
| `PersistentRecord.EnvelopeLayout` | sensor_package/firmware/xiao_mg24_sensor_node/persistent_record.cpp:25-28 | The literal bytes of a record's magic, type, version and sizes, and the offsets of its fields and checksums. |
| `Nvm.NvmBackend.Read` | sensor_package/firmware/xiao_mg24_sensor_node/nvm_backend.h:10 | Reads are truthful: the stored bytes, NotFound, or SizeExceeded for a short buffer. |
| `Nvm.NvmBackend.Write` | sensor_package/firmware/xiao_mg24_sensor_node/nvm_backend.h:11 | A write completes, fails and leaves the key as it was, or leaves undecodable bytes in that key alone; every step is recorded as a point of possible power loss. |
| `Nvm.NvmBackend.Remove` | sensor_package/firmware/xiao_mg24_sensor_node/nvm_backend.h:12 | A removal completes or fails and leaves the key as it was. |
| `Nvm.ResetLists` | sensor_package/firmware/xiao_mg24_sensor_node/application_nvm_keys.h:12-33 | The factory list is exactly keys 0x0FF00 to 0x0FF05, the configuration list exactly 0x0FF02 to 0x0FF04, and the marker is in neither. |
| `ConfigurationStore.DeserializeSerialize` | sensor_package/firmware/xiao_mg24_sensor_node/configuration_store.cpp:60-73 | Reading the 36 bytes back returns every field. |
| `ConfigurationStore.SerializeDeserialize` | sensor_package/firmware/xiao_mg24_sensor_node/configuration_store.cpp:60-73 | Every 36-byte string is the serialization of what it deserializes to. |
| `ConfigurationStore.SerializedLayout` | sensor_package/firmware/xiao_mg24_sensor_node/configuration_store.cpp:65-69 | Every field lies little-endian at its fixed offset. |
| `ConfigurationStore.ConfigurationChecksum` | sensor_package/firmware/xiao_mg24_sensor_node/configuration_store.cpp:8-16 | The byte loop computes the FNV hash of the 32 bytes before the checksum, with 32-bit multiplication. |
| `ConfigurationStore.FnvStepMeans` | sensor_package/firmware/xiao_mg24_sensor_node/configuration_store.cpp:12-13 | One step changes the low byte by the input and multiplies by 2^24 + 2^8 + 0x93. |
| `ConfigurationStore.FnvDetectsByte` | sensor_package/firmware/xiao_mg24_sensor_node/configuration_store.cpp:8-16 | The hash alone detects every change of a single byte, because the prime is invertible modulo 2^32. |
| `ConfigurationStore.RangeLimits` | sensor_package/firmware/xiao_mg24_sensor_node/configuration_store.cpp:20-24 | Each field is accepted in exactly its own range. |
| `ConfigurationStore.ValidateStamp` | sensor_package/firmware/xiao_mg24_sensor_node/configuration_store.cpp:18-26 | A stamped configuration validates if and only if the caller's fields are in range. |
| `ConfigurationStore.StampCarries` | sensor_package/firmware/xiao_mg24_sensor_node/configuration_store.cpp:92 | Stamping keeps each of the seven requested fields and sets the store's own. |
| `ConfigurationStore.PersistentConfigurationStore.ReadConfigSlot` | sensor_package/firmware/xiao_mg24_sensor_node/configuration_store.cpp:74-80 | Reads one slot: envelope, size, generation agreement and validation, with the status of the first failing check. |
| `ConfigurationStore.PersistentConfigurationStore.Load` | sensor_package/firmware/xiao_mg24_sensor_node/configuration_store.cpp:81-87 | Loads the newer valid slot, or the only one, with the source's status in each of the four cases. |
| `ConfigurationStore.LoadMeans` | sensor_package/firmware/xiao_mg24_sensor_node/configuration_store.cpp:81-87 | Each result in terms of the slots: conflict exactly with two equal generations, NotFound exactly with both slots missing, and no valid slot is newer than the one loaded. |
| `ConfigurationStore.PersistentConfigurationStore.Write` | sensor_package/firmware/xiao_mg24_sensor_node/configuration_store.cpp:88-97 | Every point of power loss holds the old contents, the committed record or a torn target slot; Ok if and only if the value was committed and read back, carrying each requested field, and then load returns it from a consistent store; exact statuses for refused writes; never fails on a reliable backend. |
| `ConfigurationStore.ReadBack` | sensor_package/firmware/xiao_mg24_sensor_node/configuration_store.cpp:60-80 | A committed record reads back as every field written. |
| `ConfigurationStore.LoadsOtherSlot` | sensor_package/firmware/xiao_mg24_sensor_node/configuration_store.cpp:81-97 | A consistent store with a valid slot loads, never in conflict, from the slot the next write does not target. |
| `ConfigurationStore.TornKeepsCurrent` | sensor_package/firmware/xiao_mg24_sensor_node/configuration_store.cpp:81-97 | After a torn write the current configuration still loads, as RecoveredFromPrevious. |
| `ConfigurationStore.CommitBecomesCurrent` | sensor_package/firmware/xiao_mg24_sensor_node/configuration_store.cpp:81-97 | A committed write becomes the loaded configuration with status Ok and leaves both slots valid, so it repairs a damaged one. |
| `ConfigurationStore.WriteKeepsConfiguration` | sensor_package/firmware/xiao_mg24_sensor_node/configuration_store.cpp:88-97 | Whatever a write leaves behind loads as exactly the previous or the new configuration. |
| `ConfigurationStore.RunLoadsLastCommitted` | sensor_package/firmware/xiao_mg24_sensor_node/configuration_store.cpp:74-97 | After every run of writes, each complete, failed, torn or cut off, and however often the generation wraps, load returns exactly the last committed configuration. |
| `ConfigurationStore.FirstWrite` | sensor_package/firmware/xiao_mg24_sensor_node/configuration_store.cpp:88-97 | The first committed write on an empty store goes to slot A and makes the store consistent and loadable at generation 1. |
| `ConfigurationStore.TornFirstWriteIsCorrupt` | sensor_package/firmware/xiao_mg24_sensor_node/configuration_store.cpp:81-90 | A torn first write on an empty store reads as Corrupt and every further write is refused. |
| `NodeIdentityStore.IsValidNodeId` | sensor_package/firmware/xiao_mg24_sensor_node/node_identity_store.cpp:14 | The scanning loop accepts exactly the node identifiers of the naming rule. |
| `NodeIdentityStore.IdCharacters` | sensor_package/firmware/xiao_mg24_sensor_node/node_identity_store.cpp:14 | The admissible characters are capital letters, digits and the hyphen. |
| `NodeIdentityStore.IdentityLayout` | sensor_package/firmware/xiao_mg24_sensor_node/node_identity_store.cpp:27 | The stored payload: schema 1, 0, state 1, length, identifier. |
| `NodeIdentityStore.NodeIdentityStore.ReadSlot` | sensor_package/firmware/xiao_mg24_sensor_node/node_identity_store.cpp:6-13 | Reads one identity slot with the status of the first failing check. |
| `NodeIdentityStore.NodeIdentityStore.Load` | sensor_package/firmware/xiao_mg24_sensor_node/node_identity_store.cpp:15-23 | Loads the newer valid identity, or the only one, with the source's status in each case. |
| `NodeIdentityStore.LoadMeans` | sensor_package/firmware/xiao_mg24_sensor_node/node_identity_store.cpp:15-23 | Each result in terms of the slots: conflict exactly with two equal generations, Unprovisioned exactly with both slots missing, and no valid slot is newer than the one loaded. |
| `NodeIdentityStore.NodeIdentityStore.Provision` | sensor_package/firmware/xiao_mg24_sensor_node/node_identity_store.cpp:24-31 | Every point of power loss is one of the five stages of provisioning; Ok exactly with both slots written; a loaded identity or an invalid identifier gives InvalidArgument and no write; other refusals return load's status. |
| `NodeIdentityStore.InterruptedProvision` | sensor_package/firmware/xiao_mg24_sensor_node/node_identity_store.cpp:24-31 | Interrupted anywhere, provisioning leaves the node unprovisioned, corrupt, or carrying exactly the requested identifier. |
| `NodeIdentityStore.IdentityIsWriteOnce` | sensor_package/firmware/xiao_mg24_sensor_node/node_identity_store.cpp:15-31 | Once an identity has loaded, every run of provision calls with any arguments and interruptions leaves load unchanged. |
| `NodeIdentityStore.ErasedNodeProvisions` | sensor_package/firmware/xiao_mg24_sensor_node/node_identity_store.cpp:24-31 | With both slots erased any valid identifier can be provisioned and then loads. |
| `FactoryReset.ExpiryAgrees` | sensor_package/firmware/xiao_mg24_sensor_node/factory_reset.cpp:75 | Expiry agrees with unwrapped time if and only if the time past the deadline is, modulo 2^32, below 2^31; so always while elapsed < ttl + 2^31. |
| `FactoryReset.ReadMarkerBack` | sensor_package/firmware/xiao_mg24_sensor_node/factory_reset.cpp:11-41 | A written marker reads back as its operation and stage. |
| `FactoryReset.FactoryResetController.Prepare` | sensor_package/firmware/xiao_mg24_sensor_node/factory_reset.cpp:59-67 | Exactly the admissible arguments in a free state are accepted, and then the pending challenge is the given one with its wrapped deadline; nothing else changes. |
| `FactoryReset.PrepareLimits` | sensor_package/firmware/xiao_mg24_sensor_node/factory_reset.cpp:62-63 | A prepare otherwise in order is accepted exactly for a lifetime of 1000 to 300000 ms and two tokens of 32 characters. |
| `FactoryReset.FactoryResetController.Cancel` | sensor_package/firmware/xiao_mg24_sensor_node/factory_reset.cpp:132 | Clears the pending flag and nothing else. |
| `FactoryReset.FactoryResetController.ReadMarker` | sensor_package/firmware/xiao_mg24_sensor_node/factory_reset.cpp:28-41 | Reads the marker with the status of the first failing check. |
| `FactoryReset.FactoryResetController.WriteMarker` | sensor_package/firmware/xiao_mg24_sensor_node/factory_reset.cpp:11-26 | One backend step on the marker key; Ok exactly when the marker is stored and verified. |
| `FactoryReset.FactoryResetController.ResetKeysAbsent` | sensor_package/firmware/xiao_mg24_sensor_node/factory_reset.cpp:43-49 | True if and only if all six reset keys are absent. |
| `FactoryReset.FactoryResetController.EraseEach` | sensor_package/firmware/xiao_mg24_sensor_node/factory_reset.cpp:90-94 | Erases every key of a list, going on after failures; at every step only listed keys are gone; no failure means all are gone. |
| `FactoryReset.FactoryResetController.EraseUntilFailure` | sensor_package/firmware/xiao_mg24_sensor_node/factory_reset.cpp:111-114 | Erases in order up to the first failure; at every step only listed keys are gone. |
| `FactoryReset.FactoryResetController.Confirm` | sensor_package/firmware/xiao_mg24_sensor_node/factory_reset.cpp:69-100 | The challenge is consumed whatever happens; only an authorised confirmation reaches the backend; every point of power loss of an application reset is journalled by a marker; Ok means all six keys absent and the marker at KeysCleared. |
| `FactoryReset.FactoryResetController.RecoverOnBoot` | sensor_package/firmware/xiao_mg24_sensor_node/factory_reset.cpp:102-123 | Without a marker, or with one that reads as neither valid nor corrupt, nothing is written, and in the latter case that status is returned; otherwise keys of the reset list alone may go, at every step under a marker; Ok with a marker means all six keys absent; without failures it succeeds if and only if the marker is replayable. |
| `FactoryReset.FactoryResetController.CompleteRecoveryOnBoot` | sensor_package/firmware/xiao_mg24_sensor_node/factory_reset.cpp:125-130 | The marker is removed only with all six keys absent; on a reliable backend exactly when the controller saw a marker, the bootstrap is ready and the keys are absent. |
| `FactoryReset.JournalledTransitive` | sensor_package/firmware/xiao_mg24_sensor_node/factory_reset.cpp:69-123 | Journalled stages compose: a reset continued from any point of power loss is a stage of the same reset. |
| `Bootstrap.SensorNode.HandleProvision` | sensor_package/firmware/xiao_mg24_sensor_node/usb_bootstrap.cpp:42 | The exact reply in every case: persistent_operation_busy if and only if a reset is in progress; the reason of every refusal; Success means the identifier now loads, and on a reliable backend it is given if and only if the node may be provisioned with it. |
| `Bootstrap.SensorNode.HandleRestore` | sensor_package/firmware/xiao_mg24_sensor_node/usb_bootstrap.cpp:44 | The exact reply in every case: persistent_operation_busy if and only if a reset is in progress; the reason of every refusal; Success means the request's numbers were committed and load, field by field, and on a reliable backend it is given if and only if the store accepts them. |
| `Bootstrap.SensorNode.HandlePrepare` | sensor_package/firmware/xiao_mg24_sensor_node/usb_bootstrap.cpp:45 | A pending challenge is cancelled first; the exact reply in every case, Success if and only if the request is well formed for this hardware, no marker is active and tokens were drawn. |
| `Bootstrap.SensorNode.HandleConfirm` | sensor_package/firmware/xiao_mg24_sensor_node/usb_bootstrap.cpp:46 | A malformed confirmation cancels; an authorised one is carried out; Success means all six keys are absent and the marker names the operation, and on a reliable backend it is given if and only if the confirmation is authorised with a full-length operation; every other reply carries its reason. |
| `Bootstrap.SensorNode.HandleRequest` | sensor_package/firmware/xiao_mg24_sensor_node/usb_bootstrap.cpp:42-47 | Every request: what each point of power loss can hold, how the reset state moves, what every response says, and on a reliable backend exactly which requests succeed. |
| `Bootstrap.SensorNode.Boot` | sensor_package/firmware/xiao_mg24_sensor_node/xiao_mg24_sensor_node.ino:572-601 | The boot sequence: what each point of power loss can hold; success means no marker; a marker recovery gives up on leaves the memory as it was. On a reliable backend the memory afterwards is exactly determined, success means replayable, and a replayed reset ends unprovisioned with no configuration. |
| `Bootstrap.ErasedStores` | sensor_package/firmware/xiao_mg24_sensor_node/factory_reset.cpp:43-49 | With the six keys absent both stores read as factory state, so the readiness test of the boot sequence holds. |
| `NodeRuns.RunIsAllOrNothing` | sensor_package/firmware/xiao_mg24_sensor_node/factory_reset.cpp:69-130 | Over every run of requests, boots and power losses from power-up the memory is a stage of one reset: without a marker the six keys are all as before or all absent, and no other key ever changes through a reset. The contents before the reset are replaced only while the memory is not half erased. |
| `NodeRuns.RecoverySettles` | sensor_package/firmware/xiao_mg24_sensor_node/factory_reset.cpp:102-123 | At any point of any run, when recovery reports Ok, either no marker exists and the six keys are all as before the reset or all absent, or a marker exists and all six are absent; every other key is as before. |
| `NodeRuns.BootSettles` | sensor_package/firmware/xiao_mg24_sensor_node/xiao_mg24_sensor_node.ino:572-601 | A boot of any run that ends with recovery status Ok leaves no marker, an idle controller, the six keys all as before the reset or all absent, and every other key as before. |
| `NodeRuns.StuckMarkerFreezesNode` | sensor_package/firmware/xiao_mg24_sensor_node/factory_reset.cpp:108 | From power-up with a marker that recovery gives up on, no event of any run ever changes the memory: no boot replays or removes it and no request gets through. |
| `NodeRuns.MarkerTraced` | sensor_package/firmware/xiao_mg24_sensor_node/factory_reset.cpp:69-130 | A marker stored at any point of a run goes back to one authorised confirmation, and was stored ever since. |
| `NodeRuns.RemovalTraced` | sensor_package/firmware/xiao_mg24_sensor_node/factory_reset.cpp:69-130 | Every removal of a reset key belongs to one authorised confirmation or to a boot replaying the marker it left. |
| `NodeRuns.PendingTraced` | sensor_package/firmware/xiao_mg24_sensor_node/factory_reset.cpp:59-67 | A pending challenge goes back to the prepare that set it, with nothing cancelling, confirming or powering down since. |
| `NodeRuns.ConfirmMatchesLatestPrepare` | sensor_package/firmware/xiao_mg24_sensor_node/factory_reset.cpp:59-75 | An authorised confirmation names the hardware, operation and challenge of the latest uncancelled prepare and is in time. |
| `NodeRuns.ConfirmInTime` | sensor_package/firmware/xiao_mg24_sensor_node/factory_reset.cpp:59-75 | On a clock that does not wrap, an authorised confirmation comes less than 60000 ms after its prepare, unless 2^31 ms or more passed after the deadline. |
| `NodeRuns.ConfirmationsNeedOwnPrepare` | sensor_package/firmware/xiao_mg24_sensor_node/factory_reset.cpp:69-73 | Between two authorised confirmations lies a prepare: each prepare authorises at most one. |
| `NodeRuns.RunGuarded` | sensor_package/firmware/xiao_mg24_sensor_node/factory_reset.cpp:69-130 | Over every run, an idle node that stores a decodable marker knows it. |
| `NodeRuns.MarkedNodeRefusesWrites` | sensor_package/firmware/xiao_mg24_sensor_node/usb_bootstrap.cpp:42-44 | In every run, while a decodable marker is stored no identity or configuration request changes the memory. |
| `NodeRuns.StoredMarkersReplay` | sensor_package/firmware/xiao_mg24_sensor_node/factory_reset.cpp:102-123 | In every run from a marker-free start a decodable marker is replayable, so one boot without failures completes the reset, and the memory is replayable if and only if recovery does not give up on the marker. |
| `NodeRuns.ClearedMarkersAreHonest` | sensor_package/firmware/xiao_mg24_sensor_node/factory_reset.cpp:85-97 | In every run from a marker-free power-up, whenever a stored marker says KeysCleared all six keys are absent. |
| `ResetLimits.StuckBytes` | sensor_package/firmware/xiao_mg24_sensor_node/factory_reset.cpp:102-108 | Recovery gives up on a stored marker if and only if it is longer than a record, or carries the magic with an envelope version other than 1. |
| `ResetLimits.StuckTornMarker` | sensor_package/firmware/xiao_mg24_sensor_node/factory_reset.cpp:108 | Concrete torn bytes (magic, then a foreign version) that recovery gives up on. |
| `ResetLimits.TornMarkerDecidesLaterWrite` | sensor_package/firmware/xiao_mg24_sensor_node/factory_reset.cpp:85-86 | A torn marker write leaves the guard open; a configuration committed afterwards survives a boot without failures if and only if recovery gives up on the torn marker, and otherwise all six keys are gone. |
| `ResetLimits.CommittedRestoreIsLost` | sensor_package/firmware/xiao_mg24_sensor_node/factory_reset.cpp:85-86 | The loss as one run: boot, prepare, torn confirmation, committed restore, power loss, boot with success, configuration gone. |
| `ResetLimits.EmptyNodeAdmits` | sensor_package/firmware/xiao_mg24_sensor_node/factory_reset.cpp:85-86 | Such a run starts from the empty memory, with any token and any configuration in range. |
| `StoreRuns.StoresUntilReset` | sensor_package/firmware/xiao_mg24_sensor_node/configuration_store.cpp:74-97 | Over every run of the node until a confirmation is authorised, a loaded identity loads unchanged and the configuration loads as the last committed restore. |
| `StoreRuns.ConfigurationNeverConflicts` | sensor_package/firmware/xiao_mg24_sensor_node/configuration_store.cpp:84 | Over every run from empty slots, resets, tears and power losses included, load never reports GenerationConflict. |
| `Sha256.ExpandSchedule` | sensor_package/firmware/xiao_mg24_sensor_node/sha256_minimal.cpp:22-31 | The word loop computes the message schedule of section 6.2.2 of FIPS 180-4. |
| `Sha256.CompressionStep` | sensor_package/firmware/xiao_mg24_sensor_node/sha256_minimal.cpp:34-40 | The rotating assignments compute one round of section 6.2.2. |
| `Sha256.Transform` | sensor_package/firmware/xiao_mg24_sensor_node/sha256_minimal.cpp:21-44 | One block is folded into the state array by the compression function. |
| `Sha256.BuildTail` | sensor_package/firmware/xiao_mg24_sensor_node/sha256_minimal.cpp:51-57 | The zero-filled tail is the last partial block followed by the padding of section 5.1.1, in one block or two. |
| `Sha256.HashWholeBlocks` | sensor_package/firmware/xiao_mg24_sensor_node/sha256_minimal.cpp:49-50 | Hashing the whole blocks leaves exactly the fold over the rest of the padded message to do. |
| `Sha256.HashTail` | sensor_package/firmware/xiao_mg24_sensor_node/sha256_minimal.cpp:58-59 | The one or two tail blocks complete the fold. |
| `Sha256.Compute` | sensor_package/firmware/xiao_mg24_sensor_node/sha256_minimal.cpp:47-64 | The digest is the SHA-256 of the message, for every message. |
| `Sha256.PadInjective` | sensor_package/firmware/xiao_mg24_sensor_node/sha256_minimal.cpp:51-57 | The padding is injective on messages below 2^61 bytes. |
| `Sha256Laws.ChoiceBit` | sensor_package/firmware/xiao_mg24_sensor_node/sha256_minimal.cpp:35 | Each bit of Ch is the bit of f where e has a 1, and of g elsewhere. |
| `Sha256Laws.MajorityBit` | sensor_package/firmware/xiao_mg24_sensor_node/sha256_minimal.cpp:38 | Each bit of Maj is the one that at least two of the three words have. |
| `Sha256Laws.RotateBit` | sensor_package/firmware/xiao_mg24_sensor_node/sha256_minimal.cpp:17-19 | Rotation moves bit j + n, modulo 32, to bit j. |
| `Sha256Laws.BigSigmaBits` | sensor_package/firmware/xiao_mg24_sensor_node/sha256_minimal.cpp:34-37 | Each bit of the two big sigmas is the parity of three bits at the distances of section 4.1.2 of FIPS 180-4. |
| `Sha256Laws.SmallSigmaBits` | sensor_package/firmware/xiao_mg24_sensor_node/sha256_minimal.cpp:28-29 | Each bit of the two small sigmas is the parity of two rotated bits and one shifted bit, zero past the top. |
| `Sha256Laws.RoundConstantOrigin` | sensor_package/firmware/xiao_mg24_sensor_node/sha256_minimal.cpp:6-15 | The 64 round constants are the first 32 fractional bits of the cube roots of the first 64 primes. |
| `Sha256Laws.InitialValueOrigin` | sensor_package/firmware/xiao_mg24_sensor_node/sha256_minimal.cpp:48 | The initial value is the first 32 fractional bits of the square roots of the first eight primes. |
| `BitReversal.RevReversesBits` | sensor_package/firmware/libraries/SeedMg24Vibration/src/vibration_fft.cpp:12-15 | Rev is bit reversal: bit j of the result is bit m-1-j of the index. |
| `BitReversal.RevInvolutive` | sensor_package/firmware/libraries/SeedMg24Vibration/src/vibration_fft.cpp:12-25 | Bit reversal is an involution. |
| `BitReversal.NextReversed` | sensor_package/firmware/libraries/SeedMg24Vibration/src/vibration_fft.cpp:13-15 | The bit-clearing loop turns the reversal of an index into the reversal of the next one. |
| `BitReversal.BitReverse` | sensor_package/firmware/libraries/SeedMg24Vibration/src/vibration_fft.cpp:12-25 | Swapping only when index < reversed leaves out[i] = in[reversal of i] in both arrays, for every power-of-two length. |
| `Fft.PolySplit` | sensor_package/firmware/libraries/SeedMg24Vibration/src/vibration_fft.cpp:27-52 | Splitting a signal into even and odd terms: P(z) = E(z^2) + z * O(z^2), for every stride and length. |
| `Fft.TargetStep` | sensor_package/firmware/libraries/SeedMg24Vibration/src/vibration_fft.cpp:34-42 | The butterfly turns the transforms of two residue classes into the two halves of the transform of their union. |
| `Fft.Butterflies` | sensor_package/firmware/libraries/SeedMg24Vibration/src/vibration_fft.cpp:32-50 | One block of butterflies with the running twiddle factor, touching nothing outside the block. |
| `Fft.Stage` | sensor_package/firmware/libraries/SeedMg24Vibration/src/vibration_fft.cpp:28-51 | One pass over all blocks of a length. |
| `Fft.StageAdvances` | sensor_package/firmware/libraries/SeedMg24Vibration/src/vibration_fft.cpp:27-52 | After a stage every block holds the transform of its residue class. |
| `Fft.Transform` | sensor_package/firmware/libraries/SeedMg24Vibration/src/vibration_fft.cpp:10-53 | For every power-of-two length and every input the arrays end up holding exactly the discrete Fourier transform, the sum over n of x[n] * w^(nk). |
| `Spectrum.VibrationFft256.Load` | sensor_package/firmware/libraries/SeedMg24Vibration/src/vibration_fft.cpp:64-72 | The windowed samples and the window sum. |
| `Spectrum.VibrationFft256.SelectDominant` | sensor_package/firmware/libraries/SeedMg24Vibration/src/vibration_fft.cpp:79-87 | The lowest bin of maximal positive amplitude from the first admissible bin on. |
| `Spectrum.VibrationFft256.Analyze` | sensor_package/firmware/libraries/SeedMg24Vibration/src/vibration_fft.cpp:57-89 | The amplitudes are those of the exact transform of the windowed signal, and the result is its dominant admissible bin, with both early exits. |
| `SpectrumBounds.RootOnCircle` | sensor_package/firmware/libraries/SeedMg24Vibration/src/vibration_fft.cpp:28-30 | Every root of the chain from -1 by square roots has modulus 1. |
| `SpectrumBounds.MagnitudeOfSum` | sensor_package/firmware/libraries/SeedMg24Vibration/src/vibration_fft.cpp:79-80 | The triangle inequality for moduli. |
| `SpectrumBounds.AmplitudeBound` | sensor_package/firmware/libraries/SeedMg24Vibration/src/vibration_fft.cpp:79-80 | For a non-negative window the amplitude of every bin above 0 is at most twice the peak of the samples. |
| `SpectrumBounds.AnalysisBounds` | sensor_package/firmware/libraries/SeedMg24Vibration/src/vibration_fft.cpp:57-89 | The reported component is absent, or between the minimum frequency and half the rate with positive amplitude at most twice the peak. |
| `ToneLaw.RootBelowOrder` | sensor_package/firmware/libraries/SeedMg24Vibration/src/vibration_fft.cpp:28-30 | No power of a root below its order is 1. |
| `ToneLaw.FullPeriod` | sensor_package/firmware/libraries/SeedMg24Vibration/src/vibration_fft.cpp:27-52 | The powers of a root over a full period cancel, except at multiples of the period. |
| `ToneLaw.ToneTransform` | sensor_package/firmware/libraries/SeedMg24Vibration/src/vibration_fft.cpp:10-53 | The transform of a tone of amplitude a on bin k is 128 * a at bin k and zero at every other bin from 1 to 127. |
| `ToneLaw.ToneAmplitude` | sensor_package/firmware/libraries/SeedMg24Vibration/src/vibration_fft.cpp:79-80 | For the rectangular window the amplitude at the tone's bin is the tone's amplitude, and zero at the others. |
| `ToneLaw.ConstantAmplitude` | sensor_package/firmware/libraries/SeedMg24Vibration/src/vibration_fft.cpp:80 | The amplitude at bin 0 of a constant is the constant. |
| `ToneLaw.ToneReported` | sensor_package/firmware/libraries/SeedMg24Vibration/src/vibration_fft.cpp:57-89 | The analysis of a tone on an admissible bin reports exactly that bin, its frequency and its amplitude. |
| `Spectrum.WindowedAt` | sensor_package/firmware/libraries/SeedMg24Vibration/src/vibration_fft.cpp:65-68 | Every sample is weighted by its own window value. |
| `Spectrum.WindowSumIsSum` | sensor_package/firmware/libraries/SeedMg24Vibration/src/vibration_fft.cpp:63-71 | The window sum is the sum of the weights. |
| `Spectrum.BinsDivideRate` | sensor_package/firmware/libraries/SeedMg24Vibration/src/vibration_fft.cpp:74 | Bins divide the sample rate into 256 equal steps. |
| `Spectrum.FirstBinIsLeast` | sensor_package/firmware/libraries/SeedMg24Vibration/src/vibration_fft.cpp:75-76 | A bin from 1 on is admissible if and only if its frequency reaches the minimum. |
| `Spectrum.DominantFrequencyRange` | sensor_package/firmware/libraries/SeedMg24Vibration/src/vibration_fft.cpp:74-88 | A selected frequency is at least the minimum and below half the sample rate. |
| `Spectrum.AmplitudeOrdersPower` | sensor_package/firmware/libraries/SeedMg24Vibration/src/vibration_fft.cpp:80-82 | Comparing amplitudes above bin 0 is comparing the transform's power. |
| `Features.CalculateAxisMetrics` | sensor_package/firmware/libraries/SeedMg24Vibration/src/vibration_features.cpp:7-49 | Both loops over a strided axis give its mean, root mean square, peak, range, deviation, crest factor and kurtosis. |
| `Features.MeanSquareDecomposition` | sensor_package/firmware/libraries/SeedMg24Vibration/src/vibration_features.cpp:27-41 | rms^2 = mean^2 + variance for every axis. |
| `Features.CrestFactorBounds` | sensor_package/firmware/libraries/SeedMg24Vibration/src/vibration_features.cpp:43 | The crest factor is 0 or between 1 and the square root of n. |
| `Features.KurtosisBounds` | sensor_package/firmware/libraries/SeedMg24Vibration/src/vibration_features.cpp:44-47 | The kurtosis is 0 or between 1 and n. |
| `Features.CrestIsRatio` | sensor_package/firmware/libraries/SeedMg24Vibration/src/vibration_features.cpp:43 | Crest factor times rms is the peak for every measurable rms; at or below 1e-12 it is 0. |
| `Features.KurtosisIsRatio` | sensor_package/firmware/libraries/SeedMg24Vibration/src/vibration_features.cpp:44-47 | Kurtosis times the squared variance is the mean fourth power, and at least 1, for every measurable variance; at or below 1e-20 it is 0. |
| `Features.WindowWithinEncoderLimits` | sensor_package/firmware/libraries/SeedMg24Vibration/src/vibration_summary.cpp:12-18 | At n = 256 the crest factor is at most 16 and the kurtosis at most 256, so the encoder's limits of 100 and 1000 never reject a computed window. |
| `DoubleBuffer.AppendKeepsInv` | sensor_package/firmware/libraries/SeedMg24Vibration/src/vibration_double_buffer.cpp:30-64 | Appending keeps the invariant of the offered stream; a frame is stored if and only if a buffer is filling. |
| `DoubleBuffer.AppendKeepsFullBuffers` | sensor_package/firmware/libraries/SeedMg24Vibration/src/vibration_double_buffer.cpp:30-64 | Appending never changes a READY or PROCESSING buffer. |
| `DoubleBuffer.AcquireHandsOutWindow` | sensor_package/firmware/libraries/SeedMg24Vibration/src/vibration_double_buffer.cpp:66-78 | The buffer handed out holds a completed window of the stream not handed out before; none is handed out only when none is READY. |
| `DoubleBuffer.ReleaseKeepsInv` | sensor_package/firmware/libraries/SeedMg24Vibration/src/vibration_double_buffer.cpp:80-88 | Releasing keeps the invariant and restarts a stalled acquisition. |
| `DoubleBuffer.FramesKeepInv` | sensor_package/firmware/libraries/SeedMg24Vibration/src/vibration_fifo.cpp:45-59 | A batch cut off by a drop keeps the invariant, and the whole batch counts as offered. |
| `DoubleBuffer.RunTracksOffered` | sensor_package/firmware/libraries/SeedMg24Vibration/src/vibration_fifo.cpp:35-60 | The tracked stream of every run is exactly the frames offered, in order. |
| `DoubleBuffer.EveryRunIsSound` | sensor_package/firmware/libraries/SeedMg24Vibration/src/vibration_double_buffer.cpp:30-88 | For every interleaving: windows handed out are disjoint; captured = 256 * completed + fill; completed = released + READY + PROCESSING; overruns = resumptions + current stall; the 32-bit counters are those counts. |
| `Stalls.FramesLostOnlyInStalls` | sensor_package/firmware/libraries/SeedMg24Vibration/src/vibration_double_buffer.cpp:30-88 | For every interleaving, an offered frame is missing from the completed windows and the filling buffer if and only if it was offered between the beginning of a stall and the release that ended it. |
| `DoubleBuffer.HandedOutWindow` | sensor_package/firmware/libraries/SeedMg24Vibration/src/vibration_double_buffer.cpp:66-78 | For every interleaving, the window handed out is 256 consecutive offered frames with the stamps of its first and last frame and the rate between them. |
| `DoubleBuffer.RateOfElapsed` | sensor_package/firmware/libraries/SeedMg24Vibration/src/vibration_double_buffer.cpp:49-52 | The window's rate is 255 intervals over the unwrapped time between its first and last frame. |
| `DoubleBuffer.AcquireScansByIndex` | sensor_package/firmware/libraries/SeedMg24Vibration/src/vibration_double_buffer.cpp:66-78 | The lowest READY index is handed out. |
| `DoubleBuffer.ParseKeepsWords` | sensor_package/firmware/libraries/SeedMg24Vibration/src/vibration_fifo.cpp:5-17 | A frame is its six words in order, the gyroscope first. |
| `DoubleBuffer.StampsAdvance` | sensor_package/firmware/libraries/SeedMg24Vibration/src/vibration_fifo.cpp:50-52 | The first frame has the given stamp and each next one an interval more, modulo 2^32. |
| `WindowAssembly.VibrationDoubleBuffer.constructor` | sensor_package/firmware/libraries/SeedMg24Vibration/src/vibration_double_buffer.cpp:5-21 | The object starts as the initial pair of buffers of the runs. |
| `WindowAssembly.VibrationDoubleBuffer.Append` | sensor_package/firmware/libraries/SeedMg24Vibration/src/vibration_double_buffer.cpp:30-64 | The in-place append refines the operation on values. |
| `WindowAssembly.VibrationDoubleBuffer.FinishWindow` | sensor_package/firmware/libraries/SeedMg24Vibration/src/vibration_double_buffer.cpp:48-62 | Publishing a full buffer and moving on. |
| `WindowAssembly.VibrationDoubleBuffer.Acquire` | sensor_package/firmware/libraries/SeedMg24Vibration/src/vibration_double_buffer.cpp:66-78 | Hands out the first READY buffer by index with its samples and timing. |
| `WindowAssembly.VibrationDoubleBuffer.ReleaseBuffer` | sensor_package/firmware/libraries/SeedMg24Vibration/src/vibration_double_buffer.cpp:80-88 | Releases exactly a PROCESSING buffer. |
| `WindowAssembly.FifoWindowAssembler.AppendBatch` | sensor_package/firmware/libraries/SeedMg24Vibration/src/vibration_fifo.cpp:35-60 | Whole-frame batches are appended up to the first dropped frame, others rejected whole; result and counters say which. |
| `WindowAssembly.FrameAt` | sensor_package/firmware/libraries/SeedMg24Vibration/src/vibration_fifo.cpp:45-52 | Frame i of a batch is its words 6i to 6i+5, stamped i intervals after the first. |
| `VibrationSummary.DecimalRoundTrip` | sensor_package/firmware/libraries/SeedMg24Vibration/src/vibration_summary.cpp:50-57 | Printed decimals read back as the number. |
| `VibrationSummary.DecimalCanonical` | sensor_package/firmware/libraries/SeedMg24Vibration/src/vibration_summary.cpp:50-57 | Printed decimals have no leading zeros. |
| `VibrationSummary.PrintLength` | sensor_package/firmware/libraries/SeedMg24Vibration/src/vibration_summary.cpp:50-84 | Every bounded summary prints in at most 228 characters. |
| `VibrationSummary.EncodeVibrationSummary` | sensor_package/firmware/libraries/SeedMg24Vibration/src/vibration_summary.cpp:45-84 | Encoding succeeds if and only if the buffer has 244 bytes and the metrics are bounded: the length limit never rejects. |
| `VibrationSummary.PrintReadsBack` | sensor_package/firmware/libraries/SeedMg24Vibration/src/vibration_summary.cpp:50-81 | The numbers of the printed text, in order, are exactly the wire fields. |
| `SummaryJson.PrintIsJson` | sensor_package/firmware/libraries/SeedMg24Vibration/src/vibration_summary.cpp:50-81 | The printed text is the compact JSON of the named fields, and the object the gateway reads has each name with its own value. |
| `VibrationSummary.ComputedWindowBounded` | sensor_package/firmware/libraries/SeedMg24Vibration/src/vibration_summary.cpp:9-41 | A window whose six axes were computed by the feature loop and the spectrum analysis is refused if and only if an acceleration peak, a dominant amplitude or a gyro rms exceeds its physical limit; with peaks up to 8 g only the gyro can be the reason. |
| `TelemetryParser.FiniteNumber` | gateway/app/ble/telemetry_parser.py:13-20 | Accepts exactly finite numbers, not booleans, in range. |
| `TelemetryParser.WireAccepted` | gateway/app/ble/telemetry_parser.py:60-92 | A bounded message is accepted if and only if its sequence and rate field are not 0, and then every field is recovered. |
| `TelemetryParser.AcceptedExactly` | gateway/app/ble/telemetry_parser.py:60-92 | Any payload is accepted if and only if it has exactly the fields, versions 1, quality 0 or 1, a sequence of at least 1 and every number in range; and then the summary is these numbers in engineering units. |
| `TelemetryParser.SummaryRoundTrip` | gateway/app/ble/telemetry_parser.py:60-92 | End to end: a bounded result is accepted if and only if its sequence is at least 1 and its rate at least 0.05 Hz, and then every value is recovered within half a wire unit. |
| `TelemetryParser.AcceptedIsBounded` | gateway/app/ble/telemetry_parser.py:60-92 | Whatever payload is accepted, from any sender, lies within the limits the node's encoder enforces, is numbered and has exactly the expected fields. |
| `TelemetryParser.ReencodeParsed` | gateway/app/ble/telemetry_parser.py:60-92 | Encoding what the gateway recovered from an accepted message gives the same message again. |
| `RateEstimator.Estimator.DrainBatch` | sensor_package/firmware/xiao_mg24_sensor_node/vibration_service.cpp:144-166 | The estimate moves a tenth of the way to an observation inside the band and stays in it; the frame interval is 1000000 over the estimate, rounded to the nearest microsecond, and between 2000 and 2857. |
| `RateEstimator.ObservedIntervals` | sensor_package/firmware/xiao_mg24_sensor_node/vibration_service.cpp:151-152 | The observed rate times the elapsed seconds is the number of intervals between the first accepted frame and the last of the batch. |
| `RateEstimator.RateStaysInBand` | sensor_package/firmware/xiao_mg24_sensor_node/vibration_service.cpp:149-160 | Over every run the estimate is strictly between 350 and 500. |
| `RateEstimator.EstimatedWindowAccepted` | sensor_package/firmware/xiao_mg24_sensor_node/vibration_service.cpp:174-179 | A bounded window at any rate the estimator can reach is accepted by the gateway if and only if it is numbered. |
| `TelemetryBuffer.Buffer.PushRecord` | sensor_package/firmware/xiao_mg24_sensor_node/telemetry_buffer.cpp:4-11 | The in-place push refines the operation on values; the drop counter moves exactly with a loss. |
| `TelemetryBuffer.Buffer.Pop` | sensor_package/firmware/xiao_mg24_sensor_node/telemetry_buffer.cpp:12-17 | Returns the oldest record marked delayed and shifts the rest down. |
| `TelemetryBuffer.Lowest` | sensor_package/firmware/xiao_mg24_sensor_node/telemetry_buffer.cpp:6-7 | The first position of the lowest priority. |
| `TelemetryBuffer.Conservation` | sensor_package/firmware/xiao_mg24_sensor_node/telemetry_buffer.cpp:4-17 | In every run the pushes are, as a multiset, the popped, the held and the lost records. |
| `TelemetryBuffer.OrderKept` | sensor_package/firmware/xiao_mg24_sensor_node/telemetry_buffer.cpp:4-17 | In every run popped records followed by held ones are a subsequence of the pushes. |
| `TelemetryBuffer.LossIsLowest` | sensor_package/firmware/xiao_mg24_sensor_node/telemetry_buffer.cpp:6-10 | A record is lost only when every retained record has at least its priority. |
| `TelemetryBuffer.FullPush` | sensor_package/firmware/xiao_mg24_sensor_node/telemetry_buffer.cpp:6-10 | A full queue accepts exactly a priority above some priority held, and then gives up the oldest record of the lowest priority; an equal priority is refused and changes nothing. |
| `TelemetryBuffer.RetainsLargest` | sensor_package/firmware/xiao_mg24_sensor_node/telemetry_buffer.cpp:4-11 | After any run of pushes the retained priorities are the 24 largest pushed, as a multiset. |
| `TelemetryBuffer.LargestUnique` | sensor_package/firmware/xiao_mg24_sensor_node/telemetry_buffer.cpp:4-11 | The n largest of a multiset are unique, so the previous row determines the retained priorities. |
| `Filters.InsertionSort` | sensor_package/firmware/xiao_mg24_sensor_node/filters.cpp:29 | The in-place loops sort: ordered and a permutation. |
| `Filters.MedianUnique` | sensor_package/firmware/xiao_mg24_sensor_node/filters.cpp:29-30 | The median of a sequence is unique. |
| `Filters.MedianSplits` | sensor_package/firmware/xiao_mg24_sensor_node/filters.cpp:29-30 | At most half the elements lie strictly below the median and at most half strictly above; it is an element, or halfway between two neighbouring ones. |
| `Filters.EmaIsWeightedSum` | sensor_package/firmware/xiao_mg24_sensor_node/filters.cpp:21-24 | The exponential average weighs the j-th last input by alpha * (1 - alpha)^j and the first input by the rest. |
| `Filters.RingTurns` | sensor_package/firmware/xiao_mg24_sensor_node/filters.cpp:25 | Storing into a full ring replaces the oldest input. |
| `Filters.RingRotation` | sensor_package/firmware/xiao_mg24_sensor_node/filters.cpp:25-27 | Reading the ring in storage order changes neither sum nor elements. |
| `Filters.NumericFilter.Configure` | sensor_package/firmware/xiao_mg24_sensor_node/filters.cpp:7-17 | Clamps the window to 1..9 and the weight to 0..1 and forgets the history. |
| `Filters.NumericFilter.Update` | sensor_package/firmware/xiao_mg24_sensor_node/filters.cpp:19-31 | For every history the output is the value, the exponential average, or the mean or true median of the last min(n, w) inputs. |
| `Filters.RunMeasures` | sensor_package/firmware/xiao_mg24_sensor_node/filters.cpp:37-38 | The run of differing inputs reaches n if and only if the last n inputs all differ. |
| `Filters.DigitalDebounceFilter.Update` | sensor_package/firmware/xiao_mg24_sensor_node/filters.cpp:36-41 | The output flips if and only if the last `required` inputs all differ from it. |
| `BaselineStatistics.WelfordCorrect` | gateway/app/services/vibration_condition.py:46-56 | One update turns the plain count, mean, sum of squared deviations, minimum and maximum of a list into those of the longer list. |
| `BaselineStatistics.UpdateStatistics` | gateway/app/services/vibration_condition.py:46-56 | The in-place loop updates every feature once. |
| `BaselineStatistics.UpdateSummarises` | gateway/app/services/vibration_condition.py:46-56 | Statistics that summarise a list of windows summarise the longer list after an update. |
| `BaselineStatistics.ExtremesBound` | gateway/app/services/vibration_condition.py:54-55 | The kept extremes are elements of the list that bound it. |
| `VibrationCondition.DeviationIsDistance` | gateway/app/services/vibration_condition.py:74-82 | A deviation of k is a distance of k units from the baseline mean, on either side, where a unit is at least the standard deviation and a tenth of the mean or one bin. |
| `VibrationCondition.SpreadIsDeviation` | gateway/app/services/vibration_condition.py:76 | The spread of the statistics of n values is their sample standard deviation: its square times n - 1 is the sum of squared deviations from the mean. |
| `VibrationCondition.SpreadOfOne` | gateway/app/services/vibration_condition.py:76 | A single learned value has no spread. |
| `VibrationCondition.UnitIsLargest` | gateway/app/services/vibration_condition.py:78-82 | The unit is the largest of the spread, a tenth of the mean (for a frequency: one bin) and the floor of its kind. |
| `VibrationCondition.EvaluateCondition` | gateway/app/services/vibration_condition.py:70-92 | The loop computes the evaluation of all features. |
| `VibrationCondition.StateReportsWorstFeature` | gateway/app/services/vibration_condition.py:70-92 | SIGNIFICANT_CHANGE if and only if some feature deviates by 6; NORMAL if and only if every feature deviates by less than 3. |
| `VibrationCondition.ScoreAgreesWithState` | gateway/app/services/vibration_condition.py:90-92 | The score is at most 40 if and only if the state is SIGNIFICANT_CHANGE, above 70 if and only if NORMAL, and 100 if and only if every feature equals its baseline mean. |
| `VibrationCondition.ScoreOfWorst` | gateway/app/services/vibration_condition.py:92 | The score is 100 less 10 for every unit of the worst deviation, down to 0. |
| `VibrationCondition.FactorsAreDeviants` | gateway/app/services/vibration_condition.py:83-88 | A feature is a factor if and only if it deviates by at least 2. |
| `VibrationCondition.FactorsSound` | gateway/app/services/vibration_condition.py:83-88 | Each factor has its own feature's mean, value, deviation and percentage, in the order of the features. |
| `VibrationCondition.ReportsWorstFactors` | gateway/app/services/vibration_condition.py:83-92 | The reported factors are the worst ones, worst first, at most five. |
| `VibrationCondition.VibrationConditionService.ProcessWindow` | gateway/app/services/vibration_condition.py:104-200 | One window: unavailable devices and duplicates change nothing; otherwise the records become those of the step function. |
| `VibrationCondition.VibrationConditionService.Learn` | gateway/app/services/vibration_condition.py:141-160 | Learning, freezing and evaluation of one window. |
| `VibrationCondition.WindowOutcome` | gateway/app/services/vibration_condition.py:136-160 | An unusable window teaches nothing and proposes INVALID or INSUFFICIENT_DATA; a usable one is learned, with its measured values, while building and evaluated once frozen. |
| `VibrationCondition.VibrationConditionService.Settle` | gateway/app/services/vibration_condition.py:162-177 | The hysteresis bookkeeping. |
| `VibrationCondition.VibrationConditionService.RelearnBaseline` | gateway/app/services/vibration_condition.py:205-265 | Relearning supersedes the current version and starts over; a repeated request changes nothing. |
| `LearnedWindows.EveryRunLearnsPlainStatistics` | gateway/app/services/vibration_condition.py:133-159 | Over every run of windows and relearns, read off the events alone: each feature's statistics are the plain ones of exactly the windows learned since the scope's last relearn, the baseline is frozen exactly when they reach the minimum, history holds versions 1..v-1 once each, and the i-th relearn's record holds the plain statistics of the windows it ended. |
| `LearnedWindows.LearnedMeans` | gateway/app/services/vibration_condition.py:133-147 | The learned windows are a subsequence of those sent, eligible and at most max(1, minimum) in number; an eligible window is left out only if it has the session and sequence of its predecessor or came after the minimum was reached. |
| `LearnedWindows.RunAgrees` | gateway/app/services/vibration_condition.py:104-265 | In every run the service's duplicate marks, current scope, relearn requests and counted windows are those of the ledger of events. |
| `ConditionRuns.FrozenOverRun` | gateway/app/services/vibration_condition.py:141-159 | However many windows follow, a frozen baseline never changes until a relearn. |
| `ConditionRuns.HistoryIsPermanent` | gateway/app/services/vibration_condition.py:228-235 | A relearn appends the superseded version verbatim, and no later event changes a history record. |
| `ConditionRuns.EntryNeedsPersistence` | gateway/app/services/vibration_condition.py:162-177 | A step enters NORMAL, ELEVATED or SIGNIFICANT_CHANGE only after the configured number of consecutive proposals, or from BASELINE_PENDING straight to NORMAL. |
| `ConditionRuns.EveryEntryPersisted` | gateway/app/services/vibration_condition.py:162-177 | The same for every entry in every run. |
| `ConditionRuns.PersistentProposalWins` | gateway/app/services/vibration_condition.py:162-177 | Conversely, in every run, once the configured number of consecutive windows proposed such a state it is the state reported. |
| `ConditionRuns.ImmediateStatesApply` | gateway/app/services/vibration_condition.py:162-164 | In every run the states that need no persistence are reported at once and a relearn goes back to BASELINE_PENDING, with nothing pending. |
| `ConditionRuns.ConditionShowsLatest` | gateway/app/services/vibration_condition.py:178-179 | A processed window shows its own score and factors in its own scope. |
| `ConditionRuns.EveryRunCountsPersistence` | gateway/app/services/vibration_condition.py:162-177 | In every run the pending count is exactly the length of the trailing run of its proposal and stays below the threshold. |

## Left out

- Hardware and transport: the NVM3 driver and its initialization failure, I2C and FIFO register access, BLE, the serial stream and the line buffer of the USB protocol.
- JSON text handling: bootstrap requests and gateway payloads are already decoded values, where a missing or malformed field is an explicit case; the vibration summary is the exception, whose printed text is modelled character by character and read back by its runs of digits.
- Clocks, random tokens, the database session and device lookups are parameters of the operations that use them.
- Null-pointer arguments, which every operation refuses before doing anything.
- The contents of the replies to read requests, and the numbers that a success reply repeats.
- Floating-point rounding, infinities inside the firmware, and the accuracy of cos, sin and sqrt. The gateway's finiteness tests are modelled by a distinct non-finite value.
- The configuration-only reset scope is modelled in the controller; runs of the node cover the application_factory scope, the only one the USB protocol accepts.
- The volatile configuration store, the alarm engine, calibration, profile and command checks: single-branch facts.
- The conditioning filters, processing yield hooks, timing sums and health output of the vibration service, and the resets of the double buffer and of the assembler counters, which only restore the initial state.
- The time stamp carried from one FIFO batch to the next; a batch's first time stamp and interval are arguments.
- Chronological order of windows handed out: the scan is by index, and the code does not keep it.
- Gateway rows that nothing reads back into the state machine: persisted vibration windows, evaluation times, reasons, public statistics; the relearn lookup by update time, which is reached only without a condition record, and then no baseline exists either.
- The algorithm version of a baseline scope: the parser admits only version 1, so a scope is an installation.
- Spectrum.VibrationFft256.Analyze: a negative minimum frequency selects bin 1; the source's conversion of a bin number of -1 or less to an unsigned one is undefined.
- Bootstrap.SensorNode.HandleRequest: assumes confirmation text without terminators inside, as a C string is; `restore_configuration` keeps only the low byte of its three narrow fields, as the source's assignment does.
- TelemetryBuffer.Buffer.PushRecord: record content other than priority and the delayed flag is one opaque value.
- TelemetryParser.FiniteNumber: a list in the quality field, on which the source's membership test raises another exception, counts as a parse error.
- Filters.NumericFilter.Update: the DigitalDebounce type behaves as the median there, as in the source.
