/** The two-slot configuration store: generation parity picks the slot, so a
    write never touches the slot that holds the current configuration. */
module ConfigurationStore {
  import opened Words
  import opened Options
  import opened PersistentRecord
  import opened Nvm
  import Crc32

  datatype StoredConfiguration = StoredConfiguration(
    magic: u32, schemaVersion: u16, reserved: u16, generation: u32,
    sampleInterval: u32, processingInterval: u32, reportInterval: u32, heartbeatInterval: u32,
    filterType: byte, filterWindow: byte, enabled: byte, reserved2: byte, checksum: u32)

  const CONFIG_MAGIC: u32 := 0x4D47_3234
  const CONFIG_SIZE: nat := 36
  const FILTER_TYPE_LAST: byte := 4

  // ----- Serialization -----

  /** The 32 bytes that precede the checksum, which are also the struct's memory. */
  function Body(v: StoredConfiguration): (r: seq<byte>)
    ensures |r| == 32
  {
    Put32(v.magic) + Put16(v.schemaVersion) + Put16(v.reserved) + Put32(v.generation)
    + Put32(v.sampleInterval) + Put32(v.processingInterval) + Put32(v.reportInterval) + Put32(v.heartbeatInterval)
    + [v.filterType, v.filterWindow, v.enabled, v.reserved2]
  }

  function Serialize(v: StoredConfiguration): (r: seq<byte>)
    ensures |r| == CONFIG_SIZE
  {
    Body(v) + Put32(v.checksum)
  }

  function Deserialize(p: seq<byte>): StoredConfiguration
    requires |p| == CONFIG_SIZE
  {
    StoredConfiguration(
      Get32(p[0..4]), Get16(p[4..6]), Get16(p[6..8]), Get32(p[8..12]),
      Get32(p[12..16]), Get32(p[16..20]), Get32(p[20..24]), Get32(p[24..28]),
      p[28], p[29], p[30], p[31], Get32(p[32..36]))
  }

  lemma SerializeSlices(a: seq<byte>, b: seq<byte>, c: seq<byte>, d: seq<byte>, e: seq<byte>, f: seq<byte>,
                        g: seq<byte>, h: seq<byte>, tail: seq<byte>, k: seq<byte>)
    requires |a| == 4 && |b| == 2 && |c| == 2 && |d| == 4 && |e| == 4 && |f| == 4 && |g| == 4 && |h| == 4
    requires |tail| == 4 && |k| == 4
    ensures var p := a + b + c + d + e + f + g + h + tail + k;
      && p[0..4] == a && p[4..6] == b && p[6..8] == c && p[8..12] == d && p[12..16] == e && p[16..20] == f
      && p[20..24] == g && p[24..28] == h && p[28] == tail[0] && p[29] == tail[1] && p[30] == tail[2]
      && p[31] == tail[3] && p[32..36] == k
  {
  }

  /** Little-endian fields at fixed offsets. */
  lemma SerializedLayout(v: StoredConfiguration)
    ensures var p := Serialize(v);
      && Get32(p[0..4]) == v.magic && Get16(p[4..6]) == v.schemaVersion && Get16(p[6..8]) == v.reserved
      && Get32(p[8..12]) == v.generation && Get32(p[12..16]) == v.sampleInterval && Get32(p[16..20]) == v.processingInterval
      && Get32(p[20..24]) == v.reportInterval && Get32(p[24..28]) == v.heartbeatInterval
      && p[28] == v.filterType && p[29] == v.filterWindow && p[30] == v.enabled && p[31] == v.reserved2
      && Get32(p[32..36]) == v.checksum
  {
    hide Put32, Get32, Put16, Get16, Serialize;
    DeserializeSerialize(v);
    var d := Deserialize(Serialize(v));
  }

  lemma DeserializeSerialize(v: StoredConfiguration)
    ensures Deserialize(Serialize(v)) == v
  {
    hide Put32, Get32, Put16, Get16;
    SerializeSlices(Put32(v.magic), Put16(v.schemaVersion), Put16(v.reserved), Put32(v.generation),
                    Put32(v.sampleInterval), Put32(v.processingInterval), Put32(v.reportInterval),
                    Put32(v.heartbeatInterval), [v.filterType, v.filterWindow, v.enabled, v.reserved2],
                    Put32(v.checksum));
    Get32Put32(v.magic);
    Get16Put16(v.schemaVersion);
    Get16Put16(v.reserved);
    Get32Put32(v.generation);
    Get32Put32(v.sampleInterval);
    Get32Put32(v.processingInterval);
    Get32Put32(v.reportInterval);
    Get32Put32(v.heartbeatInterval);
    Get32Put32(v.checksum);
  }

  lemma SerializeDeserialize(p: seq<byte>)
    requires |p| == CONFIG_SIZE
    ensures Serialize(Deserialize(p)) == p
  {
    hide Put32, Get32, Put16, Get16;
    Put32Get32(p[0..4]);
    Put16Get16(p[4..6]);
    Put16Get16(p[6..8]);
    Put32Get32(p[8..12]);
    Put32Get32(p[12..16]);
    Put32Get32(p[16..20]);
    Put32Get32(p[20..24]);
    Put32Get32(p[24..28]);
    Put32Get32(p[32..36]);
    assert p == p[0..4] + p[4..6] + p[6..8] + p[8..12] + p[12..16] + p[16..20] + p[20..24] + p[24..28]
                + [p[28], p[29], p[30], p[31]] + p[32..36];
  }

  // ----- Checksum and validation -----

  function FnvStep(hash: u32, b: byte): u32 {
    Xor32(hash, b) * 16777619 % WORD
  }

  function Fnv(hash: u32, data: seq<byte>): u32
    decreases |data|
  {
    if data == [] then hash else Fnv(FnvStep(hash, data[0]), data[1..])
  }

  function Checksum(v: StoredConfiguration): u32 {
    Fnv(2166136261, Body(v))
  }

  method ConfigurationChecksum(v: StoredConfiguration) returns (hash: u32)
    ensures hash == Checksum(v)
  {
    hide Xor32, FnvStep;
    var bytes := Body(v);
    hash := 2166136261;
    for index := 0 to |bytes|
      invariant Fnv(hash, bytes[index..]) == Checksum(v)
    {
      assert bytes[index..][1..] == bytes[index + 1..];
      hash := FnvStep(hash, bytes[index]);
    }
  }

  /** The step of FNV-1a: the byte changes the low byte of the hash, and the result is
      multiplied by the prime 2^24 + 2^8 + 0x93. */
  lemma FnvStepMeans(hash: u32, b: byte)
    ensures FnvStep(hash, b) == (hash - hash % 0x100 + Xor32(hash % 0x100, b)) * (0x100_0000 + 0x100 + 0x93) % WORD
  {
    hide Xor;
    var l := Crc32.XorLow8(hash / 0x100, hash % 0x100, b);
  }

  /** Multiplication by the odd prime is injective on 32-bit words. */
  lemma PrimeInjective(x: u32, y: u32)
    requires x * 16777619 % WORD == y * 16777619 % WORD
    ensures x == y
  {
    Inverse(x, x * 16777619 % WORD);
    Inverse(y, y * 16777619 % WORD);
  }

  /** The prime has an inverse modulo 2^32. */
  lemma Inverse(x: u32, r: u32)
    requires r == x * 16777619 % WORD
    ensures r * 0x359C449B % WORD == x
  {
    var q := x * 16777619 / WORD;
    assert r == x * 16777619 - WORD * q;
    ModShift(x, 3513497 * x - q * 0x359C449B);
  }

  lemma FnvStepInjective(hash: u32, b: byte, other: u32, d: byte)
    requires FnvStep(hash, b) == FnvStep(other, d)
    ensures hash == other ==> b == d
    ensures b == d ==> hash == other
  {
    hide Xor;
    PrimeInjective(Xor32(hash, b), Xor32(other, d));
    XorComm(hash, b);
    XorComm(other, d);
    if hash == other {
      XorCancel(b, d, hash);
    }
    if b == d {
      XorCancel(hash, other, b);
    }
  }

  lemma {:induction false} FnvInjective(hash: u32, other: u32, data: seq<byte>)
    requires Fnv(hash, data) == Fnv(other, data)
    ensures hash == other
    decreases |data|
  {
    hide FnvStep;
    if data != [] {
      FnvInjective(FnvStep(hash, data[0]), FnvStep(other, data[0]), data[1..]);
      FnvStepInjective(hash, data[0], other, data[0]);
    }
  }

  /** The checksum alone detects every change of a single byte. */
  lemma {:induction false} FnvDetectsByte(hash: u32, data: seq<byte>, i: nat, b: byte)
    requires i < |data| && b != data[i]
    ensures Fnv(hash, data[i := b]) != Fnv(hash, data)
    decreases i
  {
    hide FnvStep;
    var changed := data[i := b];
    if i == 0 {
      assert changed[1..] == data[1..];
      if Fnv(hash, changed) == Fnv(hash, data) {
        FnvInjective(FnvStep(hash, b), FnvStep(hash, data[0]), data[1..]);
        FnvStepInjective(hash, b, hash, data[0]);
      }
    } else {
      assert changed[1..] == data[1..][i - 1 := b];
      FnvDetectsByte(FnvStep(hash, data[0]), data[1..], i - 1, b);
    }
  }

  predicate InRange(v: StoredConfiguration) {
    && v.enabled <= 1 && 10 <= v.sampleInterval <= 5000
    && 10 <= v.processingInterval <= 5000
    && 50 <= v.reportInterval <= 5000
    && 1000 <= v.heartbeatInterval <= 3600000
    && v.filterType <= FILTER_TYPE_LAST && 1 <= v.filterWindow <= 9
  }

  /** Each field has its own range, whatever the others are. */
  lemma RangeLimits(v: StoredConfiguration, x: u32, b: byte)
    requires InRange(v)
    ensures InRange(v.(sampleInterval := x)) <==> 10 <= x <= 5000
    ensures InRange(v.(processingInterval := x)) <==> 10 <= x <= 5000
    ensures InRange(v.(reportInterval := x)) <==> 50 <= x <= 5000
    ensures InRange(v.(heartbeatInterval := x)) <==> 1000 <= x <= 3600000
    ensures InRange(v.(filterType := b)) <==> b <= 4
    ensures InRange(v.(filterWindow := b)) <==> 1 <= b <= 9
    ensures InRange(v.(enabled := b)) <==> b <= 1
  {
  }

  predicate Validate(v: StoredConfiguration) {
    && v.magic == CONFIG_MAGIC && v.schemaVersion == 1 && v.checksum == Checksum(v)
    && InRange(v)
  }

  // ----- Reading -----

  datatype ConfigSlot = Slot(value: StoredConfiguration) | NoSlot(status: StoreStatus)

  function ReadSlot(c: Cells, key: Key): ConfigSlot {
    match ReadCell(c, key, MAX_RECORD)
    case Unread(s) => NoSlot(s)
    case Found(data) =>
      match Decode(data, Configuration)
      case Rejected(s) => NoSlot(s)
      case Decoded(view) =>
        if |view.payload| != CONFIG_SIZE then NoSlot(Corrupt)
        else
          var v := Deserialize(view.payload);
          if v.generation != view.generation || !Validate(v) then NoSlot(Corrupt) else Slot(v)
  }

  datatype LoadResult = LoadResult(status: StoreStatus, value: Option<StoredConfiguration>)

  /** load: the newer of two valid slots, or the only one. */
  function LoadFrom(c: Cells): LoadResult {
    match (ReadSlot(c, CONFIGURATION_A), ReadSlot(c, CONFIGURATION_B))
    case (NoSlot(s), NoSlot(t)) =>
      LoadResult(if s == NotFound && t == NotFound then NotFound else Corrupt, None)
    case (Slot(a), Slot(b)) =>
      if a.generation == b.generation then LoadResult(GenerationConflict, None)
      else LoadResult(Ok, Some(if GenerationNewer(b.generation, a.generation) then b else a))
    case (Slot(a), NoSlot(t)) =>
      LoadResult(if t == NotFound then Ok else RecoveredFromPrevious, Some(a))
    case (NoSlot(s), Slot(b)) =>
      LoadResult(if s == NotFound then Ok else RecoveredFromPrevious, Some(b))
  }

  // ----- Writing -----

  function TargetSlot(generation: u32): Key {
    if generation % 2 == 1 then CONFIGURATION_A else CONFIGURATION_B
  }

  /** The generation that the next write carries. */
  function NextGeneration(c: Cells): u32 {
    match LoadFrom(c).value
    case Some(current) => Add32(current.generation, 1)
    case None => 1
  }

  /** The requested configuration with the store's own fields filled in. */
  function Stamp(input: StoredConfiguration, generation: u32): StoredConfiguration {
    var v := input.(magic := CONFIG_MAGIC, schemaVersion := 1, reserved := 0, reserved2 := 0, generation := generation);
    v.(checksum := Checksum(v))
  }

  /** v has every field that the caller of a write may choose, exactly as in input. */
  predicate Carries(v: StoredConfiguration, input: StoredConfiguration) {
    && v.sampleInterval == input.sampleInterval && v.processingInterval == input.processingInterval
    && v.reportInterval == input.reportInterval && v.heartbeatInterval == input.heartbeatInterval
    && v.filterType == input.filterType && v.filterWindow == input.filterWindow && v.enabled == input.enabled
  }

  /** Stamping leaves the caller's fields alone and fills in the store's own. */
  lemma StampCarries(input: StoredConfiguration, generation: u32)
    ensures var v := Stamp(input, generation);
      && Carries(v, input) && v.generation == generation && v.magic == 0x4D47_3234 && v.schemaVersion == 1
      && v.reserved == 0 && v.reserved2 == 0 && v.checksum == Checksum(v)
  {
    hide Put32, Put16, Fnv;
    var v := Stamp(input, generation);
    assert Body(v) == Body(v.(checksum := input.checksum));
  }

  function RecordOf(v: StoredConfiguration): seq<byte> {
    Envelope(Configuration, v.generation, Serialize(v))
  }

  /** A write gets as far as the backend only from a readable or empty store. */
  predicate Accepted(c: Cells, input: StoredConfiguration) {
    LoadFrom(c).status in {Ok, RecoveredFromPrevious, NotFound} && InRange(input)
  }

  function Proposed(c: Cells, input: StoredConfiguration): StoredConfiguration {
    Stamp(input, NextGeneration(c))
  }

  ghost predicate Committed(c: Cells, input: StoredConfiguration, c': Cells) {
    Accepted(c, input) && c' == c[TargetSlot(NextGeneration(c)) := RecordOf(Proposed(c, input))]
  }

  /** Everything a write, complete or interrupted anywhere, can leave behind. */
  ghost predicate WriteReaches(c: Cells, input: StoredConfiguration, c': Cells) {
    c' == c || Committed(c, input, c') || (Accepted(c, input) && Torn(c, TargetSlot(NextGeneration(c)), c'))
  }

  lemma ValidateStamp(input: StoredConfiguration, generation: u32)
    ensures Validate(Stamp(input, generation)) <==> InRange(input)
  {
    hide Put32, Put16, Fnv;
    var v := Stamp(input, generation);
    assert Body(v) == Body(v.(checksum := 0));
  }

  class PersistentConfigurationStore {
    const backend: NvmBackend

    constructor (backend: NvmBackend)
      ensures this.backend == backend
    {
      this.backend := backend;
    }

    method Load() returns (r: LoadResult)
      ensures r == LoadFrom(backend.cells)
    {
      hide ReadSlot;
      var a := ReadConfigSlot(CONFIGURATION_A);
      var b := ReadConfigSlot(CONFIGURATION_B);
      var av, bv := a.Slot?, b.Slot?;
      if !av && !bv {
        return LoadResult(if a.status == NotFound && b.status == NotFound then NotFound else Corrupt, None);
      }
      if av && bv && a.value.generation == b.value.generation {
        return LoadResult(GenerationConflict, None);
      }
      var value := if bv && (!av || GenerationNewer(b.value.generation, a.value.generation)) then b.value else a.value;
      if av && bv {
        return LoadResult(Ok, Some(value));
      }
      var other := if av then b.status else a.status;
      r := LoadResult(if other == NotFound then Ok else RecoveredFromPrevious, Some(value));
    }

    method ReadConfigSlot(key: Key) returns (r: ConfigSlot)
      ensures r == ReadSlot(backend.cells, key)
    {
      hide Decode, Deserialize, Validate;
      var read := backend.Read(key, MAX_RECORD);
      if read.Unread? {
        return NoSlot(read.status);
      }
      var decoded := Decode(read.data, Configuration);
      if decoded.Rejected? {
        return NoSlot(decoded.status);
      }
      if |decoded.view.payload| != CONFIG_SIZE {
        return NoSlot(Corrupt);
      }
      var v := Deserialize(decoded.view.payload);
      if v.generation != decoded.view.generation || !Validate(v) {
        return NoSlot(Corrupt);
      }
      r := Slot(v);
    }

    /** One write: the status, what it stores, and every content it passes through. */
    method Write(input: StoredConfiguration) returns (status: StoreStatus, verified: Option<StoredConfiguration>)
      modifies backend
      ensures old(backend.trace) <= backend.trace
      ensures forall i :: |old(backend.trace)| <= i < |backend.trace| ==>
        WriteReaches(old(backend.cells), input, backend.trace[i])
      ensures WriteReaches(old(backend.cells), input, backend.cells)
      ensures status == Ok <==> verified.Some?
      ensures status == Ok ==>
        && Committed(old(backend.cells), input, backend.cells)
        && verified == Some(Proposed(old(backend.cells), input)) && Carries(verified.value, input)
        && (Consistent(old(backend.cells)) ==> LoadFrom(backend.cells) == LoadResult(Ok, verified))
      ensures !Accepted(old(backend.cells), input) ==>
        && backend.cells == old(backend.cells)
        && status == (if LoadFrom(old(backend.cells)).status in {Ok, RecoveredFromPrevious, NotFound} then InvalidArgument
                      else LoadFrom(old(backend.cells)).status)
      ensures Accepted(old(backend.cells), input) ==> status in {Ok, WriteFailed}
      ensures backend.reliable && Accepted(old(backend.cells), input) ==> status == Ok
    {
      hide Decode, Envelope, Serialize, Deserialize, Checksum, Undecodable, ReadSlot, Stamp, InRange, Validate, Carries,
        Consistent;
      ghost var c := backend.cells;
      verified := None;
      var current := Load();
      if current.status !in {Ok, RecoveredFromPrevious, NotFound} {
        return current.status, None;
      }
      var generation := match current.value case Some(v) => Add32(v.generation, 1) case None => 1;
      assert generation == NextGeneration(c);
      var value := Stamp(input, generation);
      ValidateStamp(input, generation);
      if !Validate(value) {
        return InvalidArgument, None;
      }
      StampGeneration(input, generation);
      var target := TargetSlot(generation);
      var record := new byte[MAX_RECORD];
      var encoded, size := EncodePersistentRecord(Configuration, generation, 0, Serialize(value), record);
      status := backend.Write(target, record[..size]);
      if status != Ok {
        return;
      }
      ReadBack(c, target, value);
      var check := ReadConfigSlot(target);
      if !check.Slot? || check.value.generation != generation {
        return ReadbackFailed, None;
      }
      verified := Some(check.value);
      StampCarries(input, generation);
      if Consistent(c) {
        CommitBecomesCurrent(c, input, backend.cells);
      }
    }
  }

  lemma StampGeneration(input: StoredConfiguration, generation: u32)
    ensures Stamp(input, generation).generation == generation
  {
  }

  // ----- What a slot holds after a step -----

  /** A committed record reads back as every field that was written. */
  lemma ReadBack(c: Cells, key: Key, v: StoredConfiguration)
    requires Validate(v)
    ensures ReadSlot(c[key := RecordOf(v)], key) == Slot(v)
  {
    hide Decode, Envelope, Serialize, Deserialize, Validate;
    DecodeEncode(Configuration, v.generation, Serialize(v), Configuration);
    DeserializeSerialize(v);
  }

  lemma ReadElsewhere(c: Cells, c': Cells, key: Key)
    requires key in c <==> key in c'
    requires key in c ==> c'[key] == c[key]
    ensures ReadSlot(c', key) == ReadSlot(c, key)
  {
    hide Decode, Deserialize, Validate;
  }

  lemma ReadTorn(c: Cells, key: Key, c': Cells)
    requires Torn(c, key, c')
    ensures ReadSlot(c', key).NoSlot? && ReadSlot(c', key).status != NotFound
  {
    hide Deserialize, Validate;
    DecodeRejectionStatus(c'[key]);
  }

  lemma DecodeRejectionStatus(b: seq<byte>)
    ensures Decode(b, Configuration).Rejected? ==> Decode(b, Configuration).status != NotFound
  {
    hide Get32, Get16;
  }

  // ----- The store invariant -----

  /** Slot A holds odd generations, slot B even ones, and two valid slots are
      consecutive in wrap-around order. */
  ghost predicate Consistent(c: Cells) {
    var a, b := ReadSlot(c, CONFIGURATION_A), ReadSlot(c, CONFIGURATION_B);
    && (a.Slot? ==> a.value.generation % 2 == 1)
    && (b.Slot? ==> b.value.generation % 2 == 0)
    && (a.Slot? && b.Slot? ==>
          a.value.generation == Add32(b.value.generation, 1) || b.value.generation == Add32(a.value.generation, 1))
  }

  ghost predicate HasConfiguration(c: Cells) {
    ReadSlot(c, CONFIGURATION_A).Slot? || ReadSlot(c, CONFIGURATION_B).Slot?
  }

  /** A consistent store with a valid slot always loads, never in conflict, and
      what it loads sits in the slot that the next write does not target. */
  lemma LoadsOtherSlot(c: Cells)
    requires Consistent(c) && HasConfiguration(c)
    ensures LoadFrom(c).status in {Ok, RecoveredFromPrevious} && LoadFrom(c).value.Some?
    ensures var v := LoadFrom(c).value.value;
      && ReadSlot(c, TargetSlot(v.generation)) == Slot(v)
      && TargetSlot(NextGeneration(c)) != TargetSlot(v.generation)
  {
    hide ReadSlot;
  }

  /** What each result of load means for the two slots. */
  lemma LoadMeans(c: Cells)
    ensures var a, b := ReadSlot(c, CONFIGURATION_A), ReadSlot(c, CONFIGURATION_B);
      match LoadFrom(c)
      case LoadResult(status, None) =>
        && status in {NotFound, Corrupt, GenerationConflict}
        && (status == NotFound <==> a == NoSlot(NotFound) && b == NoSlot(NotFound))
        && (status == GenerationConflict <==> a.Slot? && b.Slot? && a.value.generation == b.value.generation)
      case LoadResult(status, Some(v)) =>
        && (a == Slot(v) || b == Slot(v))
        && (a.Slot? ==> !GenerationNewer(a.value.generation, v.generation))
        && (b.Slot? ==> !GenerationNewer(b.value.generation, v.generation))
        && status == (if (a.Slot? && b.Slot?) || NoSlot(NotFound) in {a, b} then Ok else RecoveredFromPrevious)
  {
    hide ReadSlot;
  }

  /** A torn write leaves the current configuration loadable. */
  lemma TornKeepsCurrent(c: Cells, c': Cells)
    requires Consistent(c) && HasConfiguration(c) && Torn(c, TargetSlot(NextGeneration(c)), c')
    ensures Consistent(c') && HasConfiguration(c') && LoadFrom(c').value == LoadFrom(c).value
    ensures LoadFrom(c').status == RecoveredFromPrevious
  {
    hide ReadSlot, Undecodable;
    LoadsOtherSlot(c);
    var t := TargetSlot(NextGeneration(c));
    ReadTorn(c, t, c');
    ReadElsewhere(c, c', if t == CONFIGURATION_A then CONFIGURATION_B else CONFIGURATION_A);
  }

  /** A committed write becomes the loaded configuration and repairs its slot. */
  lemma CommitBecomesCurrent(c: Cells, input: StoredConfiguration, c': Cells)
    requires Consistent(c) && Committed(c, input, c')
    ensures Consistent(c') && HasConfiguration(c')
    ensures LoadFrom(c') == LoadResult(Ok, Some(Proposed(c, input)))
    ensures HasConfiguration(c) ==>
      ReadSlot(c', CONFIGURATION_A).Slot? && ReadSlot(c', CONFIGURATION_B).Slot?
  {
    hide ReadSlot, Stamp, RecordOf, InRange, Validate;
    var v := Proposed(c, input);
    var t := TargetSlot(NextGeneration(c));
    var other := if t == CONFIGURATION_A then CONFIGURATION_B else CONFIGURATION_A;
    ValidateStamp(input, NextGeneration(c));
    StampGeneration(input, NextGeneration(c));
    ReadBack(c, t, v);
    ReadElsewhere(c, c', other);
    if HasConfiguration(c) {
      LoadsOtherSlot(c);
      LaterGenerationIsNewer(LoadFrom(c).value.value.generation, 1);
    }
  }

  /** Whatever a write leaves behind loads as the previous or the new configuration. */
  lemma WriteKeepsConfiguration(c: Cells, input: StoredConfiguration, c': Cells)
    requires Consistent(c) && HasConfiguration(c) && WriteReaches(c, input, c')
    ensures Consistent(c') && HasConfiguration(c')
    ensures LoadFrom(c').status in {Ok, RecoveredFromPrevious}
    ensures LoadFrom(c').value == if Committed(c, input, c') then Some(Proposed(c, input)) else LoadFrom(c).value
  {
    hide ReadSlot, Proposed, RecordOf, Undecodable, InRange;
    if Committed(c, input, c') {
      CommitBecomesCurrent(c, input, c');
    } else if c' == c {
      LoadsOtherSlot(c);
    } else {
      TornKeepsCurrent(c, c');
    }
  }

  // ----- Whole runs -----

  /** A run of writes, each complete, failed, torn or cut off by power loss. */
  ghost predicate IsRun(states: seq<Cells>, inputs: seq<StoredConfiguration>) {
    && |states| == |inputs| + 1
    && forall i :: 0 <= i < |inputs| ==> WriteReaches(states[i], inputs[i], states[i + 1])
  }

  /** The configuration of the last committed write, else the one at the start. */
  ghost function LastCommitted(states: seq<Cells>, inputs: seq<StoredConfiguration>): Option<StoredConfiguration>
    requires IsRun(states, inputs)
    decreases |inputs|
  {
    var n := |inputs|;
    if n == 0 then LoadFrom(states[0]).value
    else if Committed(states[n - 1], inputs[n - 1], states[n]) then Some(Proposed(states[n - 1], inputs[n - 1]))
    else LastCommitted(states[..n], inputs[..n - 1])
  }

  /** Once one valid slot exists, every run ends loadable, with exactly the last
      committed configuration, however often the generation wraps. */
  lemma {:induction false} RunLoadsLastCommitted(states: seq<Cells>, inputs: seq<StoredConfiguration>)
    requires IsRun(states, inputs) && Consistent(states[0]) && HasConfiguration(states[0])
    ensures var c := states[|inputs|];
      && Consistent(c) && HasConfiguration(c)
      && LoadFrom(c).status in {Ok, RecoveredFromPrevious}
      && LoadFrom(c).value == LastCommitted(states, inputs)
    decreases |inputs|
  {
    hide ReadSlot, LoadFrom, Proposed, Consistent, HasConfiguration, WriteReaches, Committed;
    var n := |inputs|;
    if n == 0 {
      hide *;
      LoadsOtherSlot(states[0]);
    } else {
      var before, earlier := states[..n], inputs[..n - 1];
      forall i | 0 <= i < n - 1
        ensures WriteReaches(before[i], earlier[i], before[i + 1])
      {
        assert WriteReaches(states[i], inputs[i], states[i + 1]);
      }
      RunLoadsLastCommitted(before, earlier);
      assert before[n - 1] == states[n - 1];
      WriteKeepsConfiguration(states[n - 1], inputs[n - 1], states[n]);
    }
  }

  /** From an empty store, the first committed write makes the store recoverable. */
  lemma FirstWrite(c: Cells, input: StoredConfiguration, c': Cells)
    requires CONFIGURATION_A !in c && CONFIGURATION_B !in c && Committed(c, input, c')
    ensures Consistent(c) && Consistent(c') && HasConfiguration(c')
    ensures LoadFrom(c') == LoadResult(Ok, Some(Stamp(input, 1))) && ReadSlot(c', CONFIGURATION_A) == Slot(Stamp(input, 1))
  {
    hide ReadSlot, Stamp, InRange, RecordOf, Validate;
    EmptyStore(c);
    CommitBecomesCurrent(c, input, c');
    ValidateStamp(input, 1);
    StampGeneration(input, 1);
    ReadBack(c, CONFIGURATION_A, Stamp(input, 1));
  }

  lemma EmptyStore(c: Cells)
    requires CONFIGURATION_A !in c && CONFIGURATION_B !in c
    ensures ReadSlot(c, CONFIGURATION_A) == NoSlot(NotFound) && ReadSlot(c, CONFIGURATION_B) == NoSlot(NotFound)
  {
    hide Decode;
  }

  /** A torn first write on an empty store reads as corrupt, and stays so: every
      further write is refused. */
  lemma TornFirstWriteIsCorrupt(c: Cells, c': Cells, input: StoredConfiguration)
    requires CONFIGURATION_A !in c && CONFIGURATION_B !in c && Torn(c, CONFIGURATION_A, c')
    ensures LoadFrom(c').status == Corrupt && !Accepted(c', input)
  {
    hide Decode;
    ReadTorn(c, CONFIGURATION_A, c');
  }
}
