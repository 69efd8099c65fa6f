/** The CRC-framed envelope around every persistent record. */
module PersistentRecord {
  import opened Words
  import Crc32

  datatype StoreStatus =
    | Ok | NotFound | Unprovisioned | Corrupt | UnsupportedVersion | InvalidArgument
    | SizeExceeded | StorageUnavailable | ReadFailed | WriteFailed | ReadbackFailed
    | IntegrityFailed | GenerationConflict | MigrationRequired | RecoveredFromPrevious

  datatype RecordType = Identity | Configuration | StoreMetadata {
    function Code(): byte {
      match this
      case Identity => 1
      case Configuration => 2
      case StoreMetadata => 3
    }
  }

  const MAGIC: u32 := 0x4E33_5247
  const ENVELOPE_VERSION: byte := 1
  const HEADER_SIZE: nat := 24
  const MAX_PAYLOAD: nat := 220
  const MAX_RECORD: nat := 244

  // ----- Generation order -----

  /** The serial-number comparison of section 3.2 of RFC 1982 on 32 bits. */
  predicate GenerationNewer(candidate: u32, reference: u32) {
    var d := Sub32(candidate, reference);
    d != 0 && d < 0x8000_0000
  }

  /** A generation reached by n increments, 0 < n < 2^31, is newer, across the wrap too. */
  lemma LaterGenerationIsNewer(g: u32, n: nat)
    requires 0 < n < 0x8000_0000
    ensures GenerationNewer((g + n) % WORD, g) && !GenerationNewer(g, (g + n) % WORD)
  {
    var h := (g + n) % WORD;
    assert h == g + n || h == g + n - WORD;
  }

  // ----- Envelope -----

  /** The header up to, and not including, its own checksum. */
  function HeaderBody(t: RecordType, generation: u32, payload: seq<byte>): (h: seq<byte>)
    requires |payload| <= MAX_PAYLOAD
    ensures |h| == 20
  {
    Put32(MAGIC) + [t.Code(), ENVELOPE_VERSION] + Put16(HEADER_SIZE) + Put16(|payload|) + Put16(0)
    + Put32(generation) + Put32(Crc32.Checksum(payload))
  }

  function Envelope(t: RecordType, generation: u32, payload: seq<byte>): (r: seq<byte>)
    requires |payload| <= MAX_PAYLOAD
    ensures |r| == HEADER_SIZE + |payload|
  {
    var h := HeaderBody(t, generation, payload);
    h + Put32(Crc32.Checksum(h)) + payload
  }

  datatype View = View(recordType: RecordType, generation: u32, payload: seq<byte>)

  datatype DecodeResult = Decoded(view: View) | Rejected(status: StoreStatus)

  /** The checks of decode_persistent_record, in order. */
  function Decode(r: seq<byte>, expected: RecordType): DecodeResult {
    if |r| < HEADER_SIZE then Rejected(Corrupt)
    else if Get32(r[0..4]) != MAGIC then Rejected(Corrupt)
    else if r[5] != ENVELOPE_VERSION then Rejected(UnsupportedVersion)
    else if r[4] != expected.Code() then Rejected(Corrupt)
    else if Get16(r[6..8]) != HEADER_SIZE || Get16(r[10..12]) != 0 then Rejected(Corrupt)
    else
      var n := Get16(r[8..10]);
      if n > MAX_PAYLOAD || |r| != HEADER_SIZE + n then Rejected(Corrupt)
      else if Get32(r[20..24]) != Crc32.Checksum(r[..20]) then Rejected(IntegrityFailed)
      else if Get32(r[16..20]) != Crc32.Checksum(r[24..]) then Rejected(IntegrityFailed)
      else Decoded(View(expected, Get32(r[12..16]), r[24..]))
  }

  /** Encoding fills the output buffer and leaves the rest of it alone. */
  method EncodePersistentRecord(t: RecordType, generation: u32, flags: u16, payload: seq<byte>, output: array<byte>)
    returns (status: StoreStatus, size: nat)
    modifies output
    ensures |payload| > 220 || output.Length < 24 + |payload| ==> status == SizeExceeded
    ensures |payload| <= 220 && 24 + |payload| <= output.Length ==>
      status == if flags != 0 then InvalidArgument else Ok
    ensures status == Ok ==>
      && |payload| <= 220 && size == 24 + |payload| <= output.Length
      && output[..size] == Envelope(t, generation, payload)
      && output[size..] == old(output[size..])
    ensures status != Ok ==> output[..] == old(output[..]) && size == 0
  {
    size := 0;
    if |payload| > MAX_PAYLOAD || output.Length < HEADER_SIZE + |payload| {
      return SizeExceeded, 0;
    }
    if flags != 0 {
      return InvalidArgument, 0;
    }
    FillEnvelope(t, generation, payload, output);
    return Ok, HEADER_SIZE + |payload|;
  }

  method FillEnvelope(t: RecordType, generation: u32, payload: seq<byte>, output: array<byte>)
    requires |payload| <= MAX_PAYLOAD && HEADER_SIZE + |payload| <= output.Length
    modifies output
    ensures output[..HEADER_SIZE + |payload|] == Envelope(t, generation, payload)
    ensures output[HEADER_SIZE + |payload|..] == old(output[HEADER_SIZE + |payload|..])
  {
    hide Put32, Put16, Crc32.Checksum;
    ghost var before := output[..];
    var payloadCrc := Crc32.PersistentCrc32(payload);
    var header := Put32(MAGIC) + [t.Code(), ENVELOPE_VERSION] + Put16(HEADER_SIZE) + Put16(|payload|) + Put16(0)
                  + Put32(generation) + Put32(payloadCrc);
    assert header == HeaderBody(t, generation, payload);
    hide HeaderBody;
    Store(output, 0, header);
    ghost var o1 := output[..];
    Store(output, HEADER_SIZE, payload);
    ghost var o2 := output[..];
    assert output[..20] == o1[..24][..20] == header;
    var headerCrc := Crc32.PersistentCrc32(output[..20]);
    Store(output, 20, Put32(headerCrc));
    LayoutJoins(before, o1, o2, output[..], header, Put32(headerCrc), payload);
    assert output[..HEADER_SIZE + |payload|] == output[..][..HEADER_SIZE + |payload|];
    assert output[HEADER_SIZE + |payload|..] == output[..][HEADER_SIZE + |payload|..];
    assert old(output[HEADER_SIZE + |payload|..]) == before[HEADER_SIZE + |payload|..];
  }

  /** The header body, then the payload, then the header checksum between them. */
  lemma LayoutJoins(b: seq<byte>, o1: seq<byte>, o2: seq<byte>, o3: seq<byte>,
                    header: seq<byte>, crc: seq<byte>, payload: seq<byte>)
    requires |header| == 20 && |crc| == 4 && 24 + |payload| <= |b| == |o1| == |o2| == |o3|
    requires o1[0..20] == header && o1[20..] == b[20..]
    requires o2[..24] == o1[..24] && o2[24..24 + |payload|] == payload && o2[24 + |payload|..] == o1[24 + |payload|..]
    requires o3[..20] == o2[..20] && o3[20..24] == crc && o3[24..] == o2[24..]
    ensures o3[..24 + |payload|] == header + crc + payload
    ensures o3[24 + |payload|..] == b[24 + |payload|..]
  {
    var n := 24 + |payload|;
    assert o3[..20] == o2[..24][..20] == o1[..24][..20] == o1[0..20];
    assert o3[24..n] == o3[24..][..|payload|] == o2[24..][..|payload|] == payload;
    assert o3[..n] == o3[..20] + o3[20..24] + o3[24..n];
    assert o3[n..] == o3[24..][|payload|..] == o2[24..][|payload|..] == o2[n..];
    assert b[n..] == b[20..][n - 20..] == o1[20..][n - 20..] == o1[n..];
  }

  /** memcpy into the buffer. */
  method Store(output: array<byte>, offset: nat, data: seq<byte>)
    requires offset + |data| <= output.Length
    modifies output
    ensures var before, after := old(output[..]), output[..];
      && after[..offset] == before[..offset] && after[offset..offset + |data|] == data
      && after[offset + |data|..] == before[offset + |data|..]
  {
    for i := 0 to |data|
      invariant forall k :: 0 <= k < output.Length && !(offset <= k < offset + i) ==> output[k] == old(output[k])
      invariant forall k :: 0 <= k < i ==> output[offset + k] == data[k]
    {
      output[offset + i] := data[i];
    }
  }

  // ----- A canonical codec -----

  lemma HeaderFields(t: RecordType, generation: u32, payload: seq<byte>)
    requires |payload| <= MAX_PAYLOAD
    ensures var h := HeaderBody(t, generation, payload);
      && h[0..4] == Put32(MAGIC) && h[4] == t.Code() && h[5] == ENVELOPE_VERSION
      && h[6..8] == Put16(HEADER_SIZE) && h[8..10] == Put16(|payload|) && h[10..12] == Put16(0)
      && h[12..16] == Put32(generation) && h[16..20] == Put32(Crc32.Checksum(payload))
  {
    hide Put32, Put16, Crc32.Checksum;
    FieldSlices(Put32(MAGIC), t.Code(), ENVELOPE_VERSION, Put16(HEADER_SIZE), Put16(|payload|), Put16(0),
                Put32(generation), Put32(Crc32.Checksum(payload)));
  }

  lemma FieldSlices(magic: seq<byte>, t: byte, version: byte, size: seq<byte>, length: seq<byte>, flags: seq<byte>,
                    generation: seq<byte>, crc: seq<byte>)
    requires |magic| == 4 && |size| == 2 && |length| == 2 && |flags| == 2 && |generation| == 4 && |crc| == 4
    ensures var h := magic + [t, version] + size + length + flags + generation + crc;
      && h[0..4] == magic && h[4] == t && h[5] == version && h[6..8] == size && h[8..10] == length
      && h[10..12] == flags && h[12..16] == generation && h[16..20] == crc
  {
  }

  lemma EnvelopeSlices(t: RecordType, generation: u32, payload: seq<byte>)
    requires |payload| <= MAX_PAYLOAD
    ensures var h, r := HeaderBody(t, generation, payload), Envelope(t, generation, payload);
      && r[..20] == h && r[20..24] == Put32(Crc32.Checksum(h)) && r[24..] == payload
      && r[0..4] == h[0..4] && r[4] == h[4] && r[5] == h[5] && r[6..8] == h[6..8] && r[8..10] == h[8..10]
      && r[10..12] == h[10..12] && r[12..16] == h[12..16] && r[16..20] == h[16..20]
  {
    hide Put32, Put16, HeaderBody, Crc32.Checksum;
  }

  /** Decoding an encoding returns its type, generation and payload, and refuses every other type. */
  lemma DecodeEncode(t: RecordType, generation: u32, payload: seq<byte>, expected: RecordType)
    requires |payload| <= MAX_PAYLOAD
    ensures Decode(Envelope(t, generation, payload), expected) ==
      if expected == t then Decoded(View(t, generation, payload)) else Rejected(Corrupt)
  {
    hide Put32, Get32, Put16, Get16, HeaderBody, Envelope, Crc32.Checksum;
    var h := HeaderBody(t, generation, payload);
    HeaderFields(t, generation, payload);
    EnvelopeSlices(t, generation, payload);
    Get32Put32(MAGIC);
    Get32Put32(generation);
    Get32Put32(Crc32.Checksum(payload));
    Get32Put32(Crc32.Checksum(h));
    Get16Put16(HEADER_SIZE);
    Get16Put16(|payload|);
    Get16Put16(0);
  }

  lemma JoinHeader(r: seq<byte>)
    requires |r| >= 24
    ensures r[..20] == r[0..4] + [r[4], r[5]] + r[6..8] + r[8..10] + r[10..12] + r[12..16] + r[16..20]
    ensures r == r[..20] + r[20..24] + r[24..]
  {
  }

  /** Whatever decodes is exactly the encoding of what it decodes to. */
  lemma EncodeDecode(r: seq<byte>, expected: RecordType)
    requires Decode(r, expected).Decoded?
    ensures var v := Decode(r, expected).view;
      v.recordType == expected && |v.payload| <= MAX_PAYLOAD && r == Envelope(v.recordType, v.generation, v.payload)
  {
    hide Put32, Get32, Put16, Get16, Crc32.Checksum;
    JoinHeader(r);
    Put32Get32(r[0..4]);
    Put16Get16(r[6..8]);
    Put16Get16(r[8..10]);
    Put16Get16(r[10..12]);
    Put32Get32(r[12..16]);
    Put32Get32(r[16..20]);
    Put32Get32(r[20..24]);
  }

  // ----- Error detection -----

  /** A record cut into an unchanged part, a run, and an unchanged part. */
  lemma Cut(r: seq<byte>, i: nat, n: nat)
    requires i + n <= |r|
    ensures r == r[..i] + r[i..i + n] + r[i + n..]
  {
  }

  /** Changing at most four consecutive bytes of the payload, or of the first 20
      header bytes, makes decoding fail for every expected type. */
  lemma BurstRejected(r: seq<byte>, s: seq<byte>, i: nat, n: nat, t: RecordType, expected: RecordType)
    requires Decode(r, t).Decoded? && |s| == |r| && s != r
    requires n <= 4 && i + n <= |r| && (i >= HEADER_SIZE || i + n <= 20)
    requires s[..i] == r[..i] && s[i + n..] == r[i + n..]
    ensures Decode(s, expected).Rejected?
  {
    hide Put32, Get32, Put16, Get16, Crc32.Checksum;
    Cut(r, i, n);
    Cut(s, i, n);
    assert r[i..i + n] != s[i..i + n];
    if i >= HEADER_SIZE {
      SuffixBurst(r, s, i, n);
      PrefixAgree(r, s, i, 16, 20);
      assert Get32(s[16..20]) == Get32(r[16..20]);
    } else {
      PrefixBurst(r, s, i, n);
      SuffixAgree(r, s, i + n, 20, 24);
    }
  }

  /** Such a change of the payload is reported as a failed checksum. */
  lemma PayloadBurstStatus(r: seq<byte>, s: seq<byte>, i: nat, n: nat, t: RecordType)
    requires Decode(r, t).Decoded? && |s| == |r| && s != r
    requires n <= 4 && HEADER_SIZE <= i && i + n <= |r| && s[..i] == r[..i] && s[i + n..] == r[i + n..]
    ensures Decode(s, t) == Rejected(IntegrityFailed)
  {
    hide Put32, Get32, Put16, Get16, Crc32.Checksum;
    BurstRejected(r, s, i, n, t, t);
    PrefixAgree(r, s, i, 0, 4);
    PrefixAgree(r, s, i, 4, 5);
    PrefixAgree(r, s, i, 5, 6);
    PrefixAgree(r, s, i, 6, 8);
    PrefixAgree(r, s, i, 8, 10);
    PrefixAgree(r, s, i, 10, 12);
    PrefixAgree(r, s, i, 0, 20);
    PrefixAgree(r, s, i, 20, 24);
    assert s[4] == s[4..5][0] && r[4] == r[4..5][0] && s[5] == s[5..6][0] && r[5] == r[5..6][0];
    assert s[..20] == s[0..20] && r[..20] == r[0..20];
  }

  /** The fixed bytes of a record, and where its fields lie. */
  lemma EnvelopeLayout(t: RecordType, generation: u32, payload: seq<byte>)
    requires |payload| <= MAX_PAYLOAD
    ensures var r := Envelope(t, generation, payload);
      && r[0..4] == [0x47, 0x52, 0x33, 0x4E]
      && r[4] == (match t case Identity => 1 case Configuration => 2 case StoreMetadata => 3) && r[5] == 1
      && r[6..8] == [24, 0] && Get16(r[8..10]) == |payload| && r[10..12] == [0, 0]
      && Get32(r[12..16]) == generation && Get32(r[16..20]) == Crc32.Checksum(payload)
      && Get32(r[20..24]) == Crc32.Checksum(r[..20]) && r[24..] == payload
  {
    hide Get32, Get16, Crc32.Checksum, HeaderBody, Envelope, Put32;
    HeaderFields(t, generation, payload);
    EnvelopeSlices(t, generation, payload);
    MagicBytes();
    Get16Put16(|payload|);
    Get32Put32(generation);
    Get32Put32(Crc32.Checksum(payload));
    Get32Put32(Crc32.Checksum(HeaderBody(t, generation, payload)));
  }

  lemma MagicBytes()
    ensures Put32(MAGIC) == [0x47, 0x52, 0x33, 0x4E]
  {
  }

  lemma PrefixAgree(r: seq<byte>, s: seq<byte>, i: nat, a: nat, b: nat)
    requires |s| == |r| && a <= b <= i <= |r| && s[..i] == r[..i]
    ensures s[a..b] == r[a..b]
  {
    assert s[a..b] == s[..i][a..b] && r[a..b] == r[..i][a..b];
  }

  lemma SuffixAgree(r: seq<byte>, s: seq<byte>, j: nat, a: nat, b: nat)
    requires |s| == |r| && j <= a <= b <= |r| && s[j..] == r[j..]
    ensures s[a..b] == r[a..b]
  {
    forall k | a <= k < b
      ensures s[k] == r[k]
    {
      assert s[j..][k - j] == r[j..][k - j];
    }
  }

  lemma SuffixBurst(r: seq<byte>, s: seq<byte>, i: nat, n: nat)
    requires |s| == |r| && HEADER_SIZE <= i && i + n <= |r| && n <= 4
    requires s[..i] == r[..i] && s[i + n..] == r[i + n..] && r[i..i + n] != s[i..i + n]
    ensures Crc32.Checksum(s[24..]) != Crc32.Checksum(r[24..])
  {
    PrefixAgree(r, s, i, 24, i);
    Crc32.BurstDetected(r[24..i], r[i..i + n], s[i..i + n], r[i + n..]);
    assert r[24..] == r[24..i] + r[i..i + n] + r[i + n..];
    assert s[24..] == s[24..i] + s[i..i + n] + s[i + n..];
  }

  lemma PrefixBurst(r: seq<byte>, s: seq<byte>, i: nat, n: nat)
    requires |s| == |r| && i + n <= 20 <= |r| && n <= 4
    requires s[..i] == r[..i] && s[i + n..] == r[i + n..] && r[i..i + n] != s[i..i + n]
    ensures Crc32.Checksum(s[..20]) != Crc32.Checksum(r[..20])
  {
    SuffixAgree(r, s, i + n, i + n, 20);
    Crc32.BurstDetected(r[..i], r[i..i + n], s[i..i + n], r[i + n..20]);
    assert r[..20] == r[..i] + r[i..i + n] + r[i + n..20];
    assert s[..20] == s[..i] + s[i..i + n] + s[i + n..20];
  }

  /** Changing any one byte of a valid record makes decoding fail. */
  lemma ByteChangeRejected(r: seq<byte>, i: nat, b: byte, t: RecordType, expected: RecordType)
    requires Decode(r, t).Decoded? && i < |r| && b != r[i]
    ensures Decode(r[i := b], expected).Rejected?
  {
    hide Put32, Get32, Put16, Get16, Crc32.Checksum;
    var s := r[i := b];
    if 20 <= i < 24 {
      assert s[..20] == r[..20];
      assert s[20..24] != r[20..24] by {
        assert s[20..24][i - 20] == b && r[20..24][i - 20] == r[i];
      }
      Get32Injective(s[20..24], r[20..24]);
    } else {
      assert s != r by {
        assert s[i] == b;
      }
      BurstRejected(r, s, i, 1, t, expected);
    }
  }

  lemma Get32Injective(s: seq<byte>, t: seq<byte>)
    requires |s| == |t| == 4 && s != t
    ensures Get32(s) != Get32(t)
  {
    hide Put32, Get32;
    Put32Get32(s);
    Put32Get32(t);
  }
}
