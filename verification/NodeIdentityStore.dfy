/** The write-once node identity, kept in two slots. */
module NodeIdentityStore {
  import opened Words
  import opened PersistentRecord
  import opened Nvm

  const NODE_ID_MAX: nat := 31
  const HYPHEN: byte := 0x2D
  const PROVISIONED: byte := 1

  datatype NodeIdentity = NodeIdentity(nodeId: seq<byte>, generation: u32)

  datatype SlotIdentity = SlotIdentity(value: NodeIdentity) | NoIdentity(status: StoreStatus)

  datatype LoadResult = Loaded(status: StoreStatus, identity: NodeIdentity) | NotLoaded(status: StoreStatus)

  // ----- Node identifiers -----

  predicate IdCharacter(c: byte) {
    0x41 <= c <= 0x5A || 0x30 <= c <= 0x39 || c == HYPHEN
  }

  /** 1 to 31 upper-case letters, digits and hyphens, with no hyphen at either
      end and no two in a row. */
  /** Capital letters, digits and the hyphen. */
  lemma IdCharacters(c: byte)
    ensures var ch := c as char; IdCharacter(c) <==> 'A' <= ch <= 'Z' || '0' <= ch <= '9' || ch == '-'
  {
  }

  /** What is stored for an identity. */
  lemma IdentityLayout(id: seq<byte>)
    requires |id| <= 31
    ensures var p := IdentityPayload(id);
      |p| == 4 + |id| && p[0] == 1 && p[1] == 0 && p[2] == 1 && p[3] == |id| && p[4..] == id
  {
  }

  predicate ValidNodeId(s: seq<byte>) {
    && 1 <= |s| <= NODE_ID_MAX && s[0] != HYPHEN && s[|s| - 1] != HYPHEN
    && (forall i :: 0 <= i < |s| ==> IdCharacter(s[i]))
    && (forall i :: 0 < i < |s| ==> !(s[i] == HYPHEN && s[i - 1] == HYPHEN))
  }

  method IsValidNodeId(s: seq<byte>) returns (r: bool)
    ensures r == ValidNodeId(s)
  {
    var n := |s|;
    if n == 0 || n > NODE_ID_MAX || s[0] == HYPHEN || s[n - 1] == HYPHEN {
      return false;
    }
    for i := 0 to n
      invariant forall k :: 0 <= k < i ==> IdCharacter(s[k])
      invariant forall k :: 0 < k < i ==> !(s[k] == HYPHEN && s[k - 1] == HYPHEN)
    {
      var c := s[i];
      if !IdCharacter(c) || (c == HYPHEN && i != 0 && s[i - 1] == HYPHEN) {
        return false;
      }
    }
    r := true;
  }

  /** What string functions see of a character buffer: the part before a zero. */
  function CString(s: seq<byte>): (r: seq<byte>) {
    if s == [] || s[0] == 0 then [] else [s[0]] + CString(s[1..])
  }

  lemma {:induction false} CStringWithoutZero(s: seq<byte>)
    requires forall i :: 0 <= i < |s| ==> s[i] != 0
    ensures CString(s) == s
    decreases |s|
  {
    if s != [] {
      CStringWithoutZero(s[1..]);
    }
  }

  // ----- Reading -----

  function ReadPayload(payload: seq<byte>, generation: u32): SlotIdentity {
    if |payload| < 4 then NoIdentity(Corrupt)
    else
      var len := payload[3];
      if payload[0] != 1 || payload[1] != 0 || len == 0 || len > NODE_ID_MAX || |payload| != 4 + len then
        NoIdentity(if payload[0] != 1 then UnsupportedVersion else Corrupt)
      else
        var id := CString(payload[4..]);
        if !ValidNodeId(id) || payload[2] != PROVISIONED then NoIdentity(Corrupt)
        else SlotIdentity(NodeIdentity(id, generation))
  }

  function ReadIdentity(c: Cells, key: Key): SlotIdentity {
    match ReadCell(c, key, MAX_RECORD)
    case Unread(s) => NoIdentity(s)
    case Found(data) =>
      match Decode(data, Identity)
      case Rejected(s) => NoIdentity(s)
      case Decoded(view) => ReadPayload(view.payload, view.generation)
  }

  /** load: the newer of two valid slots, or the only one. */
  function LoadFrom(c: Cells): LoadResult {
    match (ReadIdentity(c, IDENTITY_A), ReadIdentity(c, IDENTITY_B))
    case (NoIdentity(s), NoIdentity(t)) =>
      NotLoaded(if s == NotFound && t == NotFound then Unprovisioned else Corrupt)
    case (SlotIdentity(a), SlotIdentity(b)) =>
      if a.generation == b.generation then NotLoaded(GenerationConflict)
      else Loaded(Ok, if GenerationNewer(b.generation, a.generation) then b else a)
    case (SlotIdentity(a), NoIdentity(t)) => Loaded(if t == NotFound then Ok else RecoveredFromPrevious, a)
    case (NoIdentity(s), SlotIdentity(b)) => Loaded(if s == NotFound then Ok else RecoveredFromPrevious, b)
  }

  // ----- Provisioning -----

  function IdentityPayload(id: seq<byte>): seq<byte>
    requires |id| <= NODE_ID_MAX
  {
    [1, 0, PROVISIONED, |id|] + id
  }

  function IdentityRecord(id: seq<byte>, generation: u32): seq<byte>
    requires |id| <= NODE_ID_MAX
  {
    Envelope(Identity, generation, IdentityPayload(id))
  }

  ghost predicate MayProvision(c: Cells, id: seq<byte>) {
    ValidNodeId(id) && LoadFrom(c) == NotLoaded(Unprovisioned)
  }

  ghost function AfterSlotA(c: Cells, id: seq<byte>): Cells
    requires |id| <= NODE_ID_MAX
  {
    c[IDENTITY_A := IdentityRecord(id, 1)]
  }

  ghost function AfterSlotB(c: Cells, id: seq<byte>): Cells
    requires |id| <= NODE_ID_MAX
  {
    AfterSlotA(c, id)[IDENTITY_B := IdentityRecord(id, 2)]
  }

  /** Everything a provision call, complete or interrupted anywhere, can leave behind. */
  ghost predicate ProvisionReaches(c: Cells, id: seq<byte>, c': Cells) {
    || c' == c
    || (MayProvision(c, id) &&
          (|| Torn(c, IDENTITY_A, c') || c' == AfterSlotA(c, id)
           || Torn(AfterSlotA(c, id), IDENTITY_B, c') || c' == AfterSlotB(c, id)))
  }

  class NodeIdentityStore {
    const backend: NvmBackend

    constructor (backend: NvmBackend)
      ensures this.backend == backend
    {
      this.backend := backend;
    }

    method ReadSlot(key: Key) returns (r: SlotIdentity)
      ensures r == ReadIdentity(backend.cells, key)
    {
      hide Decode, ReadPayload;
      var read := backend.Read(key, MAX_RECORD);
      if read.Unread? {
        return NoIdentity(read.status);
      }
      var decoded := Decode(read.data, Identity);
      if decoded.Rejected? {
        return NoIdentity(decoded.status);
      }
      r := ReadPayload(decoded.view.payload, decoded.view.generation);
    }

    method Load() returns (r: LoadResult)
      ensures r == LoadFrom(backend.cells)
    {
      hide ReadIdentity;
      var a := ReadSlot(IDENTITY_A);
      var b := ReadSlot(IDENTITY_B);
      var av, bv := a.SlotIdentity?, b.SlotIdentity?;
      if !av && !bv {
        return NotLoaded(if a.status == NotFound && b.status == NotFound then Unprovisioned else Corrupt);
      }
      if av && bv && !GenerationNewer(a.value.generation, b.value.generation)
         && !GenerationNewer(b.value.generation, a.value.generation) && a.value.generation == b.value.generation {
        return NotLoaded(GenerationConflict);
      }
      var value := if bv && (!av || GenerationNewer(b.value.generation, a.value.generation)) then b.value else a.value;
      if av && bv {
        return Loaded(Ok, value);
      }
      var other := if av then b.status else a.status;
      r := Loaded(if other == NotFound then Ok else RecoveredFromPrevious, value);
    }

    /** One provision call: its result, and every content it passes through. */
    method Provision(id: seq<byte>) returns (status: StoreStatus, identity: NodeIdentity)
      modifies backend
      ensures old(backend.trace) <= backend.trace
      ensures forall i :: |old(backend.trace)| <= i < |backend.trace| ==>
        ProvisionReaches(old(backend.cells), id, backend.trace[i])
      ensures ProvisionReaches(old(backend.cells), id, backend.cells)
      ensures status == Ok ==>
        && MayProvision(old(backend.cells), id) && backend.cells == AfterSlotB(old(backend.cells), id)
        && identity == NodeIdentity(id, 2)
      ensures !MayProvision(old(backend.cells), id) ==>
        && backend.cells == old(backend.cells)
        && status == (if !ValidNodeId(id) || LoadFrom(old(backend.cells)).Loaded? then InvalidArgument
                      else LoadFrom(old(backend.cells)).status)
      ensures MayProvision(old(backend.cells), id) ==> status in {Ok, WriteFailed}
      ensures backend.reliable && MayProvision(old(backend.cells), id) ==> status == Ok
    {
      hide Decode, Envelope, ReadIdentity, Undecodable, IdentityPayload, ValidNodeId;
      ghost var c := backend.cells;
      identity := NodeIdentity([], 0);
      var valid := IsValidNodeId(id);
      if !valid {
        return InvalidArgument, identity;
      }
      ValidIdLength(id);
      var current := Load();
      if current.Loaded? {
        return InvalidArgument, identity;
      }
      if current.status != Unprovisioned {
        return current.status, identity;
      }
      status := WriteSlot(IDENTITY_A, id, 1);
      if status != Ok {
        return;
      }
      ReadWritten(c, IDENTITY_A, id, 1);
      var verify := ReadSlot(IDENTITY_A);
      if !verify.SlotIdentity? || verify.value.nodeId != id {
        return ReadbackFailed, identity;
      }
      ghost var middle := backend.cells;
      assert middle == AfterSlotA(c, id);
      status := WriteSlot(IDENTITY_B, id, 2);
      if status != Ok {
        return;
      }
      ReadWritten(middle, IDENTITY_B, id, 2);
      verify := ReadSlot(IDENTITY_B);
      if !verify.SlotIdentity? || verify.value.generation != 2 || verify.value.nodeId != id {
        return ReadbackFailed, identity;
      }
      identity := verify.value;
    }

    method WriteSlot(key: Key, id: seq<byte>, generation: u32) returns (status: StoreStatus)
      requires |id| <= NODE_ID_MAX
      modifies backend
      ensures WriteStep(old(backend.cells), key, IdentityRecord(id, generation), status, backend.cells)
      ensures backend.trace == old(backend.trace) + [backend.cells]
      ensures backend.reliable ==> status == Ok
    {
      var record := new byte[MAX_RECORD];
      var encoded, size := EncodePersistentRecord(Identity, generation, 0, IdentityPayload(id), record);
      status := backend.Write(key, record[..size]);
    }
  }

  // ----- What a slot holds after a step -----

  lemma ValidIdLength(id: seq<byte>)
    requires ValidNodeId(id)
    ensures 1 <= |id| <= NODE_ID_MAX == 31 && CString(id) == id
  {
    assert forall i :: 0 <= i < |id| ==> IdCharacter(id[i]);
    CStringWithoutZero(id);
  }

  lemma ReadWritten(c: Cells, key: Key, id: seq<byte>, generation: u32)
    requires ValidNodeId(id)
    ensures |id| <= NODE_ID_MAX
    ensures ReadIdentity(c[key := IdentityRecord(id, generation)], key) == SlotIdentity(NodeIdentity(id, generation))
  {
    hide Decode, Envelope, ValidNodeId;
    ValidIdLength(id);
    var payload := IdentityPayload(id);
    DecodeEncode(Identity, generation, payload, Identity);
    assert payload[4..] == id;
  }

  lemma ReadUnchanged(c: Cells, c': Cells, key: Key)
    requires key in c <==> key in c'
    requires key in c ==> c'[key] == c[key]
    ensures ReadIdentity(c', key) == ReadIdentity(c, key)
  {
    hide Decode, ReadPayload;
  }

  lemma ReadTorn(c: Cells, key: Key, c': Cells)
    requires Torn(c, key, c')
    ensures ReadIdentity(c', key).NoIdentity? && ReadIdentity(c', key).status != NotFound
  {
    hide Get32, Get16, ReadPayload;
  }

  lemma UnprovisionedSlots(c: Cells)
    ensures LoadFrom(c) == NotLoaded(Unprovisioned) <==>
      ReadIdentity(c, IDENTITY_A) == NoIdentity(NotFound) && ReadIdentity(c, IDENTITY_B) == NoIdentity(NotFound)
  {
    hide ReadIdentity;
  }

  /** What each result of load means for the two slots. */
  lemma LoadMeans(c: Cells)
    ensures var a, b := ReadIdentity(c, IDENTITY_A), ReadIdentity(c, IDENTITY_B);
      match LoadFrom(c)
      case NotLoaded(status) =>
        && status in {Unprovisioned, Corrupt, GenerationConflict}
        && (status == Unprovisioned <==> a == NoIdentity(NotFound) && b == NoIdentity(NotFound))
        && (status == GenerationConflict <==>
              a.SlotIdentity? && b.SlotIdentity? && a.value.generation == b.value.generation)
      case Loaded(status, v) =>
        && (a == SlotIdentity(v) || b == SlotIdentity(v))
        && (a.SlotIdentity? ==> !GenerationNewer(a.value.generation, v.generation))
        && (b.SlotIdentity? ==> !GenerationNewer(b.value.generation, v.generation))
        && status == (if (a.SlotIdentity? && b.SlotIdentity?) || NoIdentity(NotFound) in {a, b} then Ok
                      else RecoveredFromPrevious)
  {
    hide ReadIdentity;
  }

  /** After provisioning was interrupted anywhere, the node is unprovisioned,
      corrupt, or already carries exactly the requested identity. */
  lemma InterruptedProvision(c: Cells, id: seq<byte>, c': Cells)
    requires MayProvision(c, id) && ProvisionReaches(c, id, c')
    ensures LoadFrom(c') in {NotLoaded(Unprovisioned), NotLoaded(Corrupt)}
      || (LoadFrom(c').Loaded? && LoadFrom(c').identity.nodeId == id)
    ensures c' == AfterSlotB(c, id) ==> LoadFrom(c') == Loaded(Ok, NodeIdentity(id, 2))
  {
    hide ReadIdentity, Undecodable, ValidNodeId, IdentityRecord;
    UnprovisionedSlots(c);
    ValidIdLength(id);
    var a := AfterSlotA(c, id);
    ReadWritten(c, IDENTITY_A, id, 1);
    ReadUnchanged(c, a, IDENTITY_B);
    if Torn(c, IDENTITY_A, c') {
      ReadTorn(c, IDENTITY_A, c');
      ReadUnchanged(c, c', IDENTITY_B);
    } else if Torn(a, IDENTITY_B, c') {
      ReadTorn(a, IDENTITY_B, c');
      ReadUnchanged(a, c', IDENTITY_A);
    }
    var b := AfterSlotB(c, id);
    ReadWritten(a, IDENTITY_B, id, 2);
    ReadUnchanged(a, b, IDENTITY_A);
  }

  // ----- Whole runs -----

  /** The step leaves both identity slots exactly as they were. */
  ghost predicate SameIdentityCells(c: Cells, c': Cells) {
    && (IDENTITY_A in c <==> IDENTITY_A in c') && (IDENTITY_A in c ==> c'[IDENTITY_A] == c[IDENTITY_A])
    && (IDENTITY_B in c <==> IDENTITY_B in c') && (IDENTITY_B in c ==> c'[IDENTITY_B] == c[IDENTITY_B])
  }

  /** A run of provision calls with any arguments, each possibly interrupted,
      among steps that do not touch the identity slots. */
  ghost predicate IsRun(states: seq<Cells>, ids: seq<seq<byte>>) {
    && |states| == |ids| + 1
    && forall i :: 0 <= i < |ids| ==>
         ProvisionReaches(states[i], ids[i], states[i + 1]) || SameIdentityCells(states[i], states[i + 1])
  }

  /** Once an identity has loaded, it loads unchanged after every such run. */
  lemma {:induction false} IdentityIsWriteOnce(states: seq<Cells>, ids: seq<seq<byte>>)
    requires IsRun(states, ids) && LoadFrom(states[0]).Loaded?
    ensures LoadFrom(states[|ids|]) == LoadFrom(states[0])
    decreases |ids|
  {
    hide ReadIdentity, ValidNodeId, IdentityRecord, Undecodable;
    var n := |ids|;
    if n > 0 {
      var before, earlier := states[..n], ids[..n - 1];
      forall i | 0 <= i < n - 1
        ensures ProvisionReaches(before[i], earlier[i], before[i + 1]) || SameIdentityCells(before[i], before[i + 1])
      {
        assert ProvisionReaches(states[i], ids[i], states[i + 1]) || SameIdentityCells(states[i], states[i + 1]);
      }
      IdentityIsWriteOnce(before, earlier);
      assert before[n - 1] == states[n - 1];
      if SameIdentityCells(states[n - 1], states[n]) {
        ReadUnchanged(states[n - 1], states[n], IDENTITY_A);
        ReadUnchanged(states[n - 1], states[n], IDENTITY_B);
      }
    }
  }

  /** With both slots erased, any valid identifier can be provisioned and then loads. */
  lemma ErasedNodeProvisions(c: Cells, id: seq<byte>)
    requires IDENTITY_A !in c && IDENTITY_B !in c && ValidNodeId(id)
    ensures MayProvision(c, id) && LoadFrom(AfterSlotB(c, id)) == Loaded(Ok, NodeIdentity(id, 2))
  {
    hide Decode, ReadPayload, ValidNodeId, IdentityRecord;
    ValidIdLength(id);
    assert MayProvision(c, id);
    InterruptedProvision(c, id, AfterSlotB(c, id));
  }
}
