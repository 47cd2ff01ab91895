/** The export format: samples, batches and the segment header, byte for byte. */
module SegmentFormat {
  import opened Bytes
  import opened Octets
  import Crc32c

  const BATCH_MAGIC := 0x434C_5041
  const BATCH_VERSION := 2
  const SEGMENT_MAGIC := 0x4753_5049
  const SEGMENT_VERSION := 1
  const BATCH_HEADER := 16
  const SAMPLE := 24
  const SEGMENT_HEADER := 32
  const MAX_COUNT := 0x1_0000_0000

  function Crc(data: seq<byte>): (crc: nat)
    ensures crc < MAX_COUNT
  {
    Crc32c.ChecksumValue(data)
  }

  // ---------------------------------------------------------------------
  // Samples
  // ---------------------------------------------------------------------

  /** `value` is the bit pattern of the double; the three reserved bytes are part of the layout. */
  datatype Sample = Sample(timestampMs: u64, value: u64, tagId: u32, quality: byte,
                           reserved0: byte, reserved1: byte, reserved2: byte)

  function SampleBytes(s: Sample): (bytes: seq<byte>)
    ensures |bytes| == SAMPLE
  {
    LittleEndian(s.timestampMs, 8) + LittleEndian(s.value, 8) + LittleEndian(s.tagId, 4)
    + [s.quality, s.reserved0, s.reserved1, s.reserved2]
  }

  function SampleAt(bytes: seq<byte>): Sample
    requires |bytes| == SAMPLE
  {
    Pow256Values();
    Sample(FromLittleEndian(bytes[..8]), FromLittleEndian(bytes[8..16]), FromLittleEndian(bytes[16..20]),
           bytes[20], bytes[21], bytes[22], bytes[23])
  }

  lemma SampleRoundTrip(s: Sample)
    ensures SampleAt(SampleBytes(s)) == s
  {
    hide LittleEndian, FromLittleEndian, Pow256;
    Pow256Values();
    DecodeEncode(s.timestampMs, 8);
    DecodeEncode(s.value, 8);
    DecodeEncode(s.tagId, 4);
    var bytes := SampleBytes(s);
    assert bytes[..8] == LittleEndian(s.timestampMs, 8);
    assert bytes[8..16] == LittleEndian(s.value, 8);
    assert bytes[16..20] == LittleEndian(s.tagId, 4);
  }

  lemma SampleCanonical(bytes: seq<byte>)
    requires |bytes| == SAMPLE
    ensures SampleBytes(SampleAt(bytes)) == bytes
  {
    hide LittleEndian, FromLittleEndian, Pow256;
    EncodeDecode(bytes[..8]);
    EncodeDecode(bytes[8..16]);
    EncodeDecode(bytes[16..20]);
    assert bytes == bytes[..8] + bytes[8..16] + bytes[16..20] + bytes[20..];
  }

  /** Where each field of a sample lies. */
  lemma SampleLayout(s: Sample)
    ensures var b := SampleBytes(s);
            && (forall i | 0 <= i < 8 :: b[i] == s.timestampMs / Pow256(i) % 256)
            && (forall i | 0 <= i < 8 :: b[8 + i] == s.value / Pow256(i) % 256)
            && (forall i | 0 <= i < 4 :: b[16 + i] == s.tagId / Pow256(i) % 256)
            && b[20] == s.quality && b[21] == s.reserved0 && b[22] == s.reserved1 && b[23] == s.reserved2
  {
    hide LittleEndian, Pow256;
    forall i | 0 <= i < 8
      ensures LittleEndian(s.timestampMs, 8)[i] == s.timestampMs / Pow256(i) % 256
      ensures LittleEndian(s.value, 8)[i] == s.value / Pow256(i) % 256
    {
      LittleEndianDigit(s.timestampMs, 8, i);
      LittleEndianDigit(s.value, 8, i);
    }
    forall i | 0 <= i < 4 ensures LittleEndian(s.tagId, 4)[i] == s.tagId / Pow256(i) % 256 {
      LittleEndianDigit(s.tagId, 4, i);
    }
  }

  function Payload(samples: seq<Sample>): (bytes: seq<byte>)
    ensures |bytes| == SAMPLE * |samples|
  {
    if samples == [] then [] else SampleBytes(samples[0]) + Payload(samples[1..])
  }

  function SamplesOf(bytes: seq<byte>): (samples: seq<Sample>)
    requires |bytes| % SAMPLE == 0
    ensures |bytes| == SAMPLE * |samples|
  {
    if bytes == [] then [] else [SampleAt(bytes[..SAMPLE])] + SamplesOf(bytes[SAMPLE..])
  }

  lemma {:induction false} PayloadRoundTrip(samples: seq<Sample>)
    ensures SamplesOf(Payload(samples)) == samples
  {
    hide SampleBytes, SampleAt;
    if samples != [] {
      var bytes := Payload(samples);
      assert bytes[..SAMPLE] == SampleBytes(samples[0]) && bytes[SAMPLE..] == Payload(samples[1..]);
      SampleRoundTrip(samples[0]);
      PayloadRoundTrip(samples[1..]);
    }
  }

  lemma {:induction false} PayloadCanonical(bytes: seq<byte>)
    requires |bytes| % SAMPLE == 0
    ensures Payload(SamplesOf(bytes)) == bytes
  {
    hide SampleBytes, SampleAt;
    if bytes != [] {
      SampleCanonical(bytes[..SAMPLE]);
      PayloadCanonical(bytes[SAMPLE..]);
      assert bytes == bytes[..SAMPLE] + bytes[SAMPLE..];
    }
  }

  // ---------------------------------------------------------------------
  // Batches
  // ---------------------------------------------------------------------

  datatype BatchHeader = BatchHeader(magic: u32, version: u16, flags: u16, count: u32, payloadCrc: u32)

  function HeaderBytes(h: BatchHeader): (bytes: seq<byte>)
    ensures |bytes| == BATCH_HEADER
  {
    LittleEndian(h.magic, 4) + LittleEndian(h.version, 2) + LittleEndian(h.flags, 2)
    + LittleEndian(h.count, 4) + LittleEndian(h.payloadCrc, 4)
  }

  function HeaderAt(bytes: seq<byte>): BatchHeader
    requires |bytes| == BATCH_HEADER
  {
    Pow256Values();
    BatchHeader(FromLittleEndian(bytes[..4]), FromLittleEndian(bytes[4..6]), FromLittleEndian(bytes[6..8]),
                FromLittleEndian(bytes[8..12]), FromLittleEndian(bytes[12..16]))
  }

  lemma HeaderRoundTrip(h: BatchHeader)
    ensures HeaderAt(HeaderBytes(h)) == h
    ensures FromLittleEndian(HeaderBytes(h)[..4]) == h.magic
  {
    hide LittleEndian, FromLittleEndian, Pow256;
    Pow256Values();
    DecodeEncode(h.magic, 4);
    DecodeEncode(h.version, 2);
    DecodeEncode(h.flags, 2);
    DecodeEncode(h.count, 4);
    DecodeEncode(h.payloadCrc, 4);
    var bytes := HeaderBytes(h);
    assert bytes[..4] == LittleEndian(h.magic, 4);
    assert bytes[4..6] == LittleEndian(h.version, 2);
    assert bytes[6..8] == LittleEndian(h.flags, 2);
    assert bytes[8..12] == LittleEndian(h.count, 4);
    assert bytes[12..16] == LittleEndian(h.payloadCrc, 4);
  }

  lemma HeaderCanonical(bytes: seq<byte>)
    requires |bytes| == BATCH_HEADER
    ensures HeaderBytes(HeaderAt(bytes)) == bytes
  {
    hide LittleEndian, FromLittleEndian, Pow256;
    EncodeDecode(bytes[..4]);
    EncodeDecode(bytes[4..6]);
    EncodeDecode(bytes[6..8]);
    EncodeDecode(bytes[8..12]);
    EncodeDecode(bytes[12..16]);
    assert bytes == bytes[..4] + bytes[4..6] + bytes[6..8] + bytes[8..12] + bytes[12..16];
  }

  function RequiredSize(count: nat): nat { BATCH_HEADER + SAMPLE * count }

  /** Samples few enough for the 32-bit count field. */
  type Batch = samples: seq<Sample> | |samples| < MAX_COUNT

  function BatchHeaderOf(samples: Batch): BatchHeader
  {
    BatchHeader(BATCH_MAGIC, BATCH_VERSION, 0, |samples|, Crc(Payload(samples)))
  }

  function BatchBytes(samples: Batch): (bytes: seq<byte>)
    ensures |bytes| == RequiredSize(|samples|)
  {
    HeaderBytes(BatchHeaderOf(samples)) + Payload(samples)
  }

  /** Where each field of a batch lies: "APLC", the version, no flags, the count and the checksum of
      what follows, and sample k from byte 16 + 24 k on. */
  lemma BatchLayout(samples: Batch)
    ensures var b := BatchBytes(samples);
            && b[..8] == [0x41, 0x50, 0x4C, 0x43, 2, 0, 0, 0]
            && (forall i | 0 <= i < 4 :: b[8 + i] == |samples| / Pow256(i) % 256)
            && (forall i | 0 <= i < 4 :: b[12 + i] == Crc(b[16..]) / Pow256(i) % 256)
            && (forall k | 0 <= k < |samples| :: b[16 + 24 * k..40 + 24 * k] == SampleBytes(samples[k]))
  {
    hide Crc, SampleBytes, Payload, LittleEndian, Pow256;
    var b, h := BatchBytes(samples), BatchHeaderOf(samples);
    MagicBytes();
    assert b[..8] == LittleEndian(h.magic, 4) + LittleEndian(h.version, 2) + LittleEndian(h.flags, 2);
    assert b[8..12] == LittleEndian(h.count, 4) && b[12..16] == LittleEndian(h.payloadCrc, 4);
    assert b[16..] == Payload(samples);
    forall i | 0 <= i < 4
      ensures b[8 + i] == |samples| / Pow256(i) % 256 && b[12 + i] == h.payloadCrc / Pow256(i) % 256
    {
      LittleEndianDigit(h.count, 4, i);
      LittleEndianDigit(h.payloadCrc, 4, i);
      assert b[8..12][i] == b[8 + i] && b[12..16][i] == b[12 + i];
    }
    forall k | 0 <= k < |samples| ensures b[16 + 24 * k..40 + 24 * k] == SampleBytes(samples[k]) {
      PayloadAt(samples, k);
      assert b[16 + 24 * k..40 + 24 * k] == b[16..][24 * k..24 + 24 * k];
    }
  }

  lemma MagicBytes()
    ensures LittleEndian(BATCH_MAGIC, 4) + LittleEndian(BATCH_VERSION, 2) + LittleEndian(0, 2)
         == [0x41, 0x50, 0x4C, 0x43, 2, 0, 0, 0]
  {
    assert LittleEndian(BATCH_MAGIC, 4) == [0x41, 0x50, 0x4C, 0x43] by {
      assert LittleEndian(BATCH_MAGIC / 0x1_0000, 2) == [0x4C, 0x43];
    }
    assert LittleEndian(2, 2) == [2, 0] && LittleEndian(0, 2) == [0, 0];
  }

  lemma {:induction false} PayloadAt(samples: seq<Sample>, k: nat)
    requires k < |samples|
    ensures Payload(samples)[24 * k..24 + 24 * k] == SampleBytes(samples[k])
    decreases k
  {
    hide SampleBytes;
    var bytes := Payload(samples);
    if k == 0 {
      assert bytes[..24] == SampleBytes(samples[0]);
    } else {
      PayloadAt(samples[1..], k - 1);
      assert bytes[24..] == Payload(samples[1..]);
      assert bytes[24 * k..24 + 24 * k] == bytes[24..][24 * (k - 1)..24 * k];
    }
  }

  /** Copies bytes into a buffer at an offset and leaves the rest of it alone. */
  method CopyInto(out: array<byte>, at: nat, bytes: seq<byte>)
    requires at + |bytes| <= out.Length
    modifies out
    ensures out[..] == old(out[..])[..at] + bytes + old(out[..])[at + |bytes|..]
  {
    ghost var was := out[..];
    for i := 0 to |bytes|
      invariant forall k | 0 <= k < out.Length :: out[k] == if at <= k < at + i then bytes[k - at] else was[k]
    {
      out[at + i] := bytes[i];
    }
  }

  /** Encodes into a caller's buffer; nothing is written when it does not fit. */
  method Serialize(samples: seq<Sample>, out: array<byte>, hasSse42: bool) returns (written: nat)
    modifies out
    ensures out.Length < RequiredSize(|samples|) || |samples| >= MAX_COUNT ==> written == 0 && out[..] == old(out[..])
    ensures RequiredSize(|samples|) <= out.Length && |samples| < MAX_COUNT ==>
              && written == RequiredSize(|samples|)
              && out[..] == BatchBytes(samples) + old(out[..])[written..]
  {
    var total := RequiredSize(|samples|);
    if out.Length < total || |samples| > 0xFFFF_FFFF {
      return 0;
    }
    hide HeaderBytes, Payload;
    var payload := Payload(samples);
    var crc := Crc32c.Compute(payload, hasSse42);
    var header := BatchHeader(BATCH_MAGIC, BATCH_VERSION, 0, |samples|, crc as int);
    ghost var was := out[..];
    CopyInto(out, 0, HeaderBytes(header));
    if |payload| > 0 {
      CopyInto(out, BATCH_HEADER, payload);
    }
    TwoCopies(was, HeaderBytes(header), payload);
    return total;
  }

  lemma TwoCopies(was: seq<byte>, header: seq<byte>, payload: seq<byte>)
    requires |header| + |payload| <= |was|
    ensures var once := was[..0] + header + was[0 + |header|..];
            once[..|header|] + payload + once[|header| + |payload|..] == header + payload + was[|header| + |payload|..]
    ensures payload == [] ==> was[..0] + header + was[0 + |header|..] == header + payload + was[|header| + |payload|..]
  {}

  datatype DecodeStatus = Ok | TooShort | BadMagic | UnsupportedVersion | Truncated | CrcMismatch

  /** The header check: status, header and full batch size (which may exceed the data). */
  function Peek(data: seq<byte>): (r: (DecodeStatus, BatchHeader, nat))
    ensures r.0 != CrcMismatch
  {
    var none := BatchHeader(0, 0, 0, 0, 0);
    if |data| < BATCH_HEADER then (TooShort, none, 0)
    else
      var h := HeaderAt(data[..BATCH_HEADER]);
      if h.magic != BATCH_MAGIC then (BadMagic, h, 0)
      else if h.version != BATCH_VERSION then (UnsupportedVersion, h, 0)
      else if |data| < RequiredSize(h.count) then (Truncated, h, RequiredSize(h.count))
      else (Ok, h, RequiredSize(h.count))
  }

  /** Validates the batch at the start of `data` and returns its samples. */
  function Decode(data: seq<byte>): (r: (DecodeStatus, seq<Sample>)) {
    var (status, h, size) := Peek(data);
    if status != Ok then (status, [])
    else if Crc(data[BATCH_HEADER..size]) != h.payloadCrc then (CrcMismatch, [])
    else (Ok, SamplesOf(data[BATCH_HEADER..size]))
  }

  lemma PeekBatch(samples: Batch, tail: seq<byte>)
    ensures Peek(BatchBytes(samples) + tail) == (Ok, BatchHeaderOf(samples), RequiredSize(|samples|))
    ensures (BatchBytes(samples) + tail)[BATCH_HEADER..RequiredSize(|samples|)] == Payload(samples)
  {
    hide HeaderBytes, HeaderAt, Payload, Crc;
    var data := BatchBytes(samples) + tail;
    HeaderRoundTrip(BatchHeaderOf(samples));
    assert data[..BATCH_HEADER] == HeaderBytes(BatchHeaderOf(samples));
    assert data[BATCH_HEADER..RequiredSize(|samples|)] == Payload(samples);
  }

  /** Decoding what was encoded gives it back, whatever follows in the buffer. */
  lemma BatchRoundTrip(samples: Batch, tail: seq<byte>)
    ensures Decode(BatchBytes(samples) + tail) == (Ok, samples)
  {
    hide Peek, Payload, Crc, SamplesOf;
    PeekBatch(samples, tail);
    PayloadRoundTrip(samples);
  }

  /** An accepted buffer starts with the encoding of its samples, except for the unused flags. */
  lemma DecodeCanonical(data: seq<byte>)
    requires Decode(data).0 == Ok
    ensures var samples := Decode(data).1;
            |samples| < MAX_COUNT && RequiredSize(|samples|) <= |data| &&
            exists flags: u16 :: data[..RequiredSize(|samples|)]
                == HeaderBytes(BatchHeaderOf(samples).(flags := flags)) + Payload(samples)
  {
    hide HeaderBytes, HeaderAt, Payload, Crc, SamplesOf;
    var h := HeaderAt(data[..BATCH_HEADER]);
    var size := RequiredSize(h.count);
    PayloadCanonical(data[BATCH_HEADER..size]);
    HeaderCanonical(data[..BATCH_HEADER]);
    var samples := Decode(data).1;
    assert h == BatchHeaderOf(samples).(flags := h.flags);
    assert data[..size] == data[..BATCH_HEADER] + data[BATCH_HEADER..size];
  }

  /** A batch cut short. */
  lemma CutBatchRefused(samples: Batch, n: nat)
    requires n < RequiredSize(|samples|)
    ensures Decode(BatchBytes(samples)[..n]) == (if n < BATCH_HEADER then TooShort else Truncated, [])
  {
    hide HeaderBytes, HeaderAt, Payload, Crc;
    if n >= BATCH_HEADER {
      HeaderRoundTrip(BatchHeaderOf(samples));
      assert BatchBytes(samples)[..n][..BATCH_HEADER] == HeaderBytes(BatchHeaderOf(samples));
    }
  }

  const MAGIC_BYTES: seq<byte> := [0x41, 0x50, 0x4C, 0x43]

  /** A batch whose magic or version is something else. */
  lemma ForeignBatchRefused(samples: Batch, word: seq<byte>, version: seq<byte>, tail: seq<byte>)
    requires |word| == 4 && |version| == 2
    ensures word != MAGIC_BYTES ==> Decode(word + BatchBytes(samples)[4..] + tail) == (BadMagic, [])
    ensures version != [2, 0] ==>
              Decode(BatchBytes(samples)[..4] + version + BatchBytes(samples)[6..] + tail) == (UnsupportedVersion, [])
  {
    hide Decode, BatchBytes, FromLittleEndian, LittleEndian;
    var b := BatchBytes(samples);
    MagicWords(samples);
    EncodeDecode(word);
    var unmarked := word + b[4..] + tail;
    assert unmarked[..4] == word;
    RefusedByHeader(unmarked);
    EncodeDecode(version);
    var newer := b[..4] + version + b[6..] + tail;
    assert newer[4..6] == version && newer[..4] == b[..4];
    RefusedByHeader(newer);
  }

  lemma MagicWords(samples: Batch)
    ensures LittleEndian(BATCH_MAGIC, 4) == MAGIC_BYTES && LittleEndian(BATCH_VERSION, 2) == [2, 0]
    ensures FromLittleEndian(BatchBytes(samples)[..4]) == BATCH_MAGIC
  {
    hide HeaderBytes, LittleEndian, FromLittleEndian, Crc, Payload;
    MagicBytes();
    HeaderRoundTrip(BatchHeaderOf(samples));
    assert BatchBytes(samples)[..4] == HeaderBytes(BatchHeaderOf(samples))[..4];
    var front := LittleEndian(BATCH_MAGIC, 4) + LittleEndian(BATCH_VERSION, 2) + LittleEndian(0, 2);
    assert front[..4] == LittleEndian(BATCH_MAGIC, 4) && front[4..6] == LittleEndian(BATCH_VERSION, 2);
  }

  lemma RefusedByHeader(data: seq<byte>)
    requires |data| >= BATCH_HEADER
    ensures FromLittleEndian(data[..4]) != BATCH_MAGIC ==> Decode(data) == (BadMagic, [])
    ensures FromLittleEndian(data[..4]) == BATCH_MAGIC && FromLittleEndian(data[4..6]) != BATCH_VERSION ==>
              Decode(data) == (UnsupportedVersion, [])
  {
    hide FromLittleEndian, Crc, SamplesOf;
    assert data[..BATCH_HEADER][..4] == data[..4] && data[..BATCH_HEADER][4..6] == data[4..6];
  }

  /** A batch with damage within 32 consecutive bits of its samples. */
  lemma DamagedBatchRefused(samples: Batch, damaged: seq<byte>, tail: seq<byte>)
    requires Crc32c.Burst(Payload(samples), damaged)
    ensures Decode(HeaderBytes(BatchHeaderOf(samples)) + damaged + tail) == (CrcMismatch, [])
  {
    hide HeaderBytes, HeaderAt, Payload, SamplesOf;
    var data := HeaderBytes(BatchHeaderOf(samples)) + damaged + tail;
    HeaderRoundTrip(BatchHeaderOf(samples));
    Crc32c.BurstChangesValue(Payload(samples), damaged);
    hide Crc32c.ChecksumValue, Crc32c.SameOutside;
    assert data[..BATCH_HEADER] == HeaderBytes(BatchHeaderOf(samples));
    assert data[BATCH_HEADER..RequiredSize(|samples|)] == damaged;
  }

  /** What the source's decode_copy does to its output vector. */
  method DecodeCopy(data: seq<byte>, out: seq<Sample>, hasSse42: bool)
    returns (status: DecodeStatus, appended: seq<Sample>)
    ensures status == Decode(data).0
    ensures appended == if status == Ok then out + Decode(data).1 else out
  {
    var (s, h, size) := Peek(data);
    if s != Ok {
      return s, out;
    }
    var payload := data[BATCH_HEADER..size];
    var crc := Crc32c.Compute(payload, hasSse42);
    if crc as int != h.payloadCrc {
      return CrcMismatch, out;
    }
    appended := CopySamples(payload, out);
    status := Ok;
  }

  method CopySamples(payload: seq<byte>, out: seq<Sample>) returns (appended: seq<Sample>)
    requires |payload| % SAMPLE == 0
    ensures appended == out + SamplesOf(payload)
  {
    hide SampleAt;
    appended := out;
    var i := 0;
    while i < |payload| / SAMPLE
      invariant SAMPLE * i <= |payload|
      invariant out + SamplesOf(payload) == appended + SamplesOf(payload[SAMPLE * i..])
    {
      FirstSample(payload[SAMPLE * i..]);
      assert payload[SAMPLE * i..][SAMPLE..] == payload[SAMPLE * (i + 1)..];
      appended := appended + [SampleAt(payload[SAMPLE * i..][..SAMPLE])];
      i := i + 1;
    }
  }

  lemma FirstSample(bytes: seq<byte>)
    requires |bytes| >= SAMPLE && |bytes| % SAMPLE == 0
    ensures SamplesOf(bytes) == [SampleAt(bytes[..SAMPLE])] + SamplesOf(bytes[SAMPLE..])
  {}
}
