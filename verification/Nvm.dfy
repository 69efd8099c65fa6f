/** Non-volatile memory behind the backend interface: a map from keys to byte
    strings, reached one step at a time. */
module Nvm {
  import opened Words
  import opened PersistentRecord

  type Key = u32
  type Cells = map<Key, seq<byte>>

  const IDENTITY_A: Key := 0x0FF00
  const IDENTITY_B: Key := 0x0FF01
  const CONFIGURATION_A: Key := 0x0FF02
  const CONFIGURATION_B: Key := 0x0FF03
  const CONFIGURATION_STAGING: Key := 0x0FF04
  const STORE_METADATA: Key := 0x0FF05
  const RESET_MARKER: Key := 0x0FF06

  const CONFIGURATION_RESET: seq<Key> := [CONFIGURATION_A, CONFIGURATION_B, CONFIGURATION_STAGING]
  const FACTORY_RESET: seq<Key> :=
    [IDENTITY_A, IDENTITY_B, CONFIGURATION_A, CONFIGURATION_B, CONFIGURATION_STAGING, STORE_METADATA]

  /** The factory list is all application keys but the marker, the configuration list
      the slots and the staging key. */
  lemma ResetLists(k: Key)
    ensures k in FACTORY_RESET <==> 0x0FF00 <= k <= 0x0FF05
    ensures k in CONFIGURATION_RESET <==> 0x0FF02 <= k <= 0x0FF04
    ensures RESET_MARKER == 0x0FF06
  {
  }

  datatype ReadResult = Found(data: seq<byte>) | Unread(status: StoreStatus)

  /** Reads are truthful: they fail only on a missing key or a short buffer. */
  function ReadCell(c: Cells, key: Key, capacity: nat): ReadResult {
    if key !in c then Unread(NotFound)
    else if |c[key]| > capacity then Unread(SizeExceeded)
    else Found(c[key])
  }

  /** No record type decodes from these bytes. */
  predicate Undecodable(b: seq<byte>) {
    Decode(b, Identity).Rejected? && Decode(b, Configuration).Rejected? && Decode(b, StoreMetadata).Rejected?
  }

  /** A write cut short: the key holds undecodable bytes and nothing else changed. */
  ghost predicate Torn(c: Cells, key: Key, c': Cells) {
    key in c' && c' == c[key := c'[key]] && Undecodable(c'[key])
  }

  /** A write completes, fails and leaves the key as it was, or is torn. */
  ghost predicate WriteStep(c: Cells, key: Key, data: seq<byte>, status: StoreStatus, c': Cells) {
    if status == Ok then c' == c[key := data] else status == WriteFailed && (c' == c || Torn(c, key, c'))
  }

  /** A removal completes (also when the key is absent) or fails cleanly. */
  ghost predicate RemoveStep(c: Cells, key: Key, status: StoreStatus, c': Cells) {
    if status == Ok then c' == c - {key} else status == WriteFailed && c' == c
  }

  /** The backend. `trace` records the contents after every modifying step: each
      of its elements is what survives a power loss at that point of the run. A
      reliable backend never fails a step. */
  class NvmBackend {
    var cells: Cells
    ghost var trace: seq<Cells>
    const reliable: bool

    constructor (cells: Cells, reliable: bool)
      ensures this.cells == cells && trace == [] && this.reliable == reliable
    {
      this.cells := cells;
      this.reliable := reliable;
      trace := [];
    }

    method Read(key: Key, capacity: nat) returns (r: ReadResult)
      ensures r == ReadCell(cells, key, capacity)
    {
      r := ReadCell(cells, key, capacity);
    }

    method Write(key: Key, data: seq<byte>) returns (status: StoreStatus)
      modifies this
      ensures WriteStep(old(cells), key, data, status, cells)
      ensures trace == old(trace) + [cells]
      ensures reliable ==> status == Ok
    {
      var fails: bool := *;
      if reliable || !fails {
        cells := cells[key := data];
        status := Ok;
      } else {
        var fragment: seq<byte> := *;
        var torn: bool := *;
        if torn && Undecodable(fragment) {
          cells := cells[key := fragment];
        }
        status := WriteFailed;
      }
      trace := trace + [cells];
    }

    method Remove(key: Key) returns (status: StoreStatus)
      modifies this
      ensures RemoveStep(old(cells), key, status, cells)
      ensures trace == old(trace) + [cells]
      ensures reliable ==> status == Ok
    {
      var fails: bool := *;
      if reliable || !fails {
        cells := cells - {key};
        status := Ok;
      } else {
        status := WriteFailed;
      }
      trace := trace + [cells];
    }
  }
}
