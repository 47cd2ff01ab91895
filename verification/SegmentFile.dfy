/** Whole segment files: header, tag table, padding and batches, and the reader's loops. */
module SegmentFile {
  import Crc32c
  import opened Bytes
  import opened Octets
  import opened Optional
  import opened SegmentFormat
  import opened SegmentReader

  datatype ReadError =
    | CannotOpen | FileTooShort | NotASegment | UnknownVersion | TableTooLong | TableDamaged | TableMalformed

  /** `tags` is what the tag table decodes to; its JSON encoding is not part of this model. */
  datatype ReadResult<+T> = Failed(error: ReadError) | Read(tags: T, createdMs: u64, outcome: Outcome)

  function AlignUp(n: nat): (m: nat)
    ensures n <= m < n + 8 && m % 8 == 0
  {
    (n + 7) / 8 * 8
  }

  function SegmentHeaderBytes(createdMs: u64, tableBytes: u32, tableCrc: u32): (bytes: seq<byte>)
    ensures |bytes| == SEGMENT_HEADER
  {
    LittleEndian(SEGMENT_MAGIC, 4) + LittleEndian(SEGMENT_VERSION, 2) + LittleEndian(0, 2)
    + LittleEndian(createdMs, 8) + LittleEndian(tableBytes, 4) + LittleEndian(tableCrc, 4) + LittleEndian(0, 8)
  }

  /** A tag table short enough for its 32-bit length field. */
  type Table = bytes: seq<byte> | |bytes| < MAX_COUNT

  function Padding(n: nat): (zeros: seq<byte>)
    ensures |zeros| == n
  {
    if n == 0 then [] else [0] + Padding(n - 1)
  }

  /** Everything in front of the first batch. */
  function SegmentPrefix(createdMs: u64, table: Table): (bytes: seq<byte>)
    ensures |bytes| == AlignUp(SEGMENT_HEADER + |table|)
  {
    SegmentHeaderBytes(createdMs, |table|, Crc(table)) + table
    + Padding(AlignUp(SEGMENT_HEADER + |table|) - (SEGMENT_HEADER + |table|))
  }

  function ReadFile<T>(file: Option<seq<byte>>, decodeTags: seq<byte> -> Option<T>): ReadResult<T> {
    if file.None? then Failed(CannotOpen)
    else
      var f := file.value;
      if |f| < SEGMENT_HEADER then Failed(FileTooShort)
      else if FromLittleEndian(f[..4]) != SEGMENT_MAGIC then Failed(NotASegment)
      else if FromLittleEndian(f[4..6]) != SEGMENT_VERSION then Failed(UnknownVersion)
      else
        var tableEnd := SEGMENT_HEADER + FromLittleEndian(f[16..20]);
        if tableEnd > |f| then Failed(TableTooLong)
        else if Crc(f[SEGMENT_HEADER..tableEnd]) != FromLittleEndian(f[20..24]) then Failed(TableDamaged)
        else match decodeTags(f[SEGMENT_HEADER..tableEnd])
          case None => Failed(TableMalformed)
          case Some(tags) =>
            Pow256Values();
            Read(tags, FromLittleEndian(f[8..16]),
                 if AlignUp(tableEnd) <= |f| then Scan(f[AlignUp(tableEnd)..]) else Outcome([], 0, false))
  }

  /** A file that starts with a writer's prefix is read as that table followed by a scan of the rest. */
  lemma ReadPrefixed<T>(createdMs: u64, table: Table, body: seq<byte>, decodeTags: seq<byte> -> Option<T>)
    requires decodeTags(table).Some?
    ensures ReadFile(Some(SegmentPrefix(createdMs, table) + body), decodeTags)
         == Read(decodeTags(table).value, createdMs, Scan(body))
  {
    hide LittleEndian, FromLittleEndian, Pow256, Scan, Crc;
    Pow256Values();
    var crc := Crc(table);
    DecodeEncode(SEGMENT_MAGIC, 4);
    DecodeEncode(SEGMENT_VERSION, 2);
    DecodeEncode(createdMs, 8);
    DecodeEncode(|table|, 4);
    DecodeEncode(crc, 4);
    var f := SegmentPrefix(createdMs, table) + body;
    assert f[..4] == LittleEndian(SEGMENT_MAGIC, 4);
    assert f[4..6] == LittleEndian(SEGMENT_VERSION, 2);
    assert f[8..16] == LittleEndian(createdMs, 8);
    assert f[16..20] == LittleEndian(|table|, 4);
    assert f[20..24] == LittleEndian(crc, 4);
    assert f[SEGMENT_HEADER..SEGMENT_HEADER + |table|] == table;
    assert f[AlignUp(SEGMENT_HEADER + |table|)..] == body;
  }

  const FILE_MAGIC: seq<byte> := [0x49, 0x50, 0x53, 0x47]

  lemma PrefixMagic()
    ensures LittleEndian(SEGMENT_MAGIC, 4) == FILE_MAGIC && LittleEndian(SEGMENT_VERSION, 2) == [1, 0]
  {
    assert LittleEndian(SEGMENT_MAGIC / 0x1_0000, 2) == [0x53, 0x47];
    assert LittleEndian(1, 2) == [1, 0];
  }

  /** Where each field of a segment's prefix lies: "IPSG", the version, the creation time, the length
      and the checksum of the tag table, then the table, zeros up to a multiple of eight. */
  lemma PrefixLayout(createdMs: u64, table: Table)
    ensures var b := SegmentPrefix(createdMs, table);
            && b[..8] == FILE_MAGIC + [1, 0, 0, 0]
            && (forall i | 0 <= i < 8 :: b[8 + i] == createdMs / Pow256(i) % 256)
            && (forall i | 0 <= i < 4 :: b[16 + i] == |table| / Pow256(i) % 256)
            && (forall i | 0 <= i < 4 :: b[20 + i] == Crc(table) / Pow256(i) % 256)
            && b[32..32 + |table|] == table
            && |b| % 8 == 0 && |b| < 32 + |table| + 8
            && (forall i | 24 <= i < 32 || 32 + |table| <= i < |b| :: b[i] == 0)
  {
    hide Crc, LittleEndian, Pow256;
    var b, crc := SegmentPrefix(createdMs, table), Crc(table);
    PrefixMagic();
    ZeroBytes();
    Zeros(AlignUp(SEGMENT_HEADER + |table|) - (SEGMENT_HEADER + |table|));
    assert b[..8] == LittleEndian(SEGMENT_MAGIC, 4) + LittleEndian(SEGMENT_VERSION, 2) + LittleEndian(0, 2);
    assert b[8..16] == LittleEndian(createdMs, 8) && b[16..20] == LittleEndian(|table|, 4);
    assert b[20..24] == LittleEndian(crc, 4) && b[24..32] == LittleEndian(0, 8);
    forall i | 0 <= i < 8 ensures b[8 + i] == createdMs / Pow256(i) % 256 && b[24 + i] == 0 {
      LittleEndianDigit(createdMs, 8, i);
      assert b[8..16][i] == b[8 + i] && b[24..32][i] == b[24 + i];
    }
    forall i | 0 <= i < 4 ensures b[16 + i] == |table| / Pow256(i) % 256 && b[20 + i] == crc / Pow256(i) % 256 {
      LittleEndianDigit(|table|, 4, i);
      LittleEndianDigit(crc, 4, i);
      assert b[16..20][i] == b[16 + i] && b[20..24][i] == b[20 + i];
    }
    forall i | 24 <= i < 32 ensures b[i] == 0 { assert b[24 + (i - 24)] == 0; }
  }

  lemma ZeroBytes()
    ensures LittleEndian(0, 8) == [0, 0, 0, 0, 0, 0, 0, 0] && LittleEndian(0, 2) == [0, 0]
  {
    assert LittleEndian(0, 3) == [0, 0, 0];
    assert LittleEndian(0, 5) == [0, 0, 0, 0, 0];
  }

  lemma {:induction false} Zeros(n: nat)
    ensures forall i | 0 <= i < n :: Padding(n)[i] == 0
  {
    if n > 0 { Zeros(n - 1); }
  }

  /** Files the reader refuses by their header, whatever follows: none, shorter than a header,
      another magic, another version, cut inside the tag table. */
  lemma HeaderRefusals<T>(createdMs: u64, table: Table, word: seq<byte>, version: seq<byte>, n: nat, body: seq<byte>,
                          decodeTags: seq<byte> -> Option<T>)
    requires |word| == 4 && |version| == 2
    ensures var p := SegmentPrefix(createdMs, table);
            && ReadFile(None, decodeTags) == Failed(CannotOpen)
            && (n < SEGMENT_HEADER ==> ReadFile(Some(p[..n]), decodeTags) == Failed(FileTooShort))
            && (word != FILE_MAGIC ==> ReadFile(Some(word + p[4..] + body), decodeTags) == Failed(NotASegment))
            && (version != [1, 0] ==>
                  ReadFile(Some(p[..4] + version + p[6..] + body), decodeTags) == Failed(UnknownVersion))
            && (SEGMENT_HEADER <= n < SEGMENT_HEADER + |table| ==>
                  ReadFile(Some(p[..n]), decodeTags) == Failed(TableTooLong))
  {
    hide ReadFile, Crc, LittleEndian, FromLittleEndian, Pow256, SegmentPrefix;
    var p := SegmentPrefix(createdMs, table);
    PrefixFields(createdMs, table);
    PrefixMagic();
    EncodeDecode(word);
    EncodeDecode(version);
    NoFile(decodeTags);
    if n < SEGMENT_HEADER { RefusedEarly(p[..n], decodeTags); }
    var unmarked := word + p[4..] + body;
    assert unmarked[..4] == word;
    RefusedEarly(unmarked, decodeTags);
    var newer := p[..4] + version + p[6..] + body;
    assert newer[..4] == p[..4] && newer[4..6] == version;
    RefusedEarly(newer, decodeTags);
    if SEGMENT_HEADER <= n < SEGMENT_HEADER + |table| {
      assert p[..n][..4] == p[..4] && p[..n][4..6] == p[4..6] && p[..n][16..20] == p[16..20];
      RefusedEarly(p[..n], decodeTags);
    }
  }

  lemma NoFile<T>(decodeTags: seq<byte> -> Option<T>)
    ensures ReadFile(None, decodeTags) == Failed(CannotOpen)
  {}

  lemma RefusedEarly<T>(f: seq<byte>, decodeTags: seq<byte> -> Option<T>)
    ensures |f| < SEGMENT_HEADER ==> ReadFile(Some(f), decodeTags) == Failed(FileTooShort)
    ensures |f| >= SEGMENT_HEADER ==>
              && (FromLittleEndian(f[..4]) != SEGMENT_MAGIC ==> ReadFile(Some(f), decodeTags) == Failed(NotASegment))
              && (FromLittleEndian(f[..4]) == SEGMENT_MAGIC && FromLittleEndian(f[4..6]) != SEGMENT_VERSION ==>
                    ReadFile(Some(f), decodeTags) == Failed(UnknownVersion))
              && (FromLittleEndian(f[..4]) == SEGMENT_MAGIC && FromLittleEndian(f[4..6]) == SEGMENT_VERSION
                  && SEGMENT_HEADER + FromLittleEndian(f[16..20]) > |f| ==>
                    ReadFile(Some(f), decodeTags) == Failed(TableTooLong))
  {
    hide FromLittleEndian, Crc, Scan;
  }

  /** Files refused by their tag table: damaged within 32 consecutive bits, or not accepted by the
      tag decoder. */
  lemma TableRefusals<T>(createdMs: u64, table: Table, damaged: seq<byte>, body: seq<byte>,
                         decodeTags: seq<byte> -> Option<T>)
    ensures var p := SegmentPrefix(createdMs, table);
            && (Crc32c.Burst(table, damaged) ==>
                  ReadFile(Some(p[..SEGMENT_HEADER] + damaged + p[SEGMENT_HEADER + |table|..] + body), decodeTags)
                  == Failed(TableDamaged))
            && (decodeTags(table).None? ==> ReadFile(Some(p + body), decodeTags) == Failed(TableMalformed))
  {
    hide ReadFile, Crc, LittleEndian, FromLittleEndian, Pow256, SegmentPrefix, Crc32c.Burst;
    var p := SegmentPrefix(createdMs, table);
    PrefixFields(createdMs, table);
    if Crc32c.Burst(table, damaged) {
      SameLength(table, damaged);
      Crc32c.BurstChangesValue(table, damaged);
      DifferentCrc(table, damaged);
      var f := p[..SEGMENT_HEADER] + damaged + p[SEGMENT_HEADER + |table|..] + body;
      assert f[..4] == p[..4] && f[4..6] == p[4..6] && f[16..20] == p[16..20] && f[20..24] == p[20..24];
      assert f[SEGMENT_HEADER..SEGMENT_HEADER + |table|] == damaged;
      RefusedByTable(f, damaged, decodeTags);
    }
    var whole := p + body;
    assert whole[..4] == p[..4] && whole[4..6] == p[4..6] && whole[16..20] == p[16..20] && whole[20..24] == p[20..24];
    assert whole[SEGMENT_HEADER..SEGMENT_HEADER + |table|] == table;
    RefusedByTable(whole, table, decodeTags);
  }

  lemma RefusedByTable<T>(f: seq<byte>, table: seq<byte>, decodeTags: seq<byte> -> Option<T>)
    requires SEGMENT_HEADER + |table| <= |f| && f[SEGMENT_HEADER..SEGMENT_HEADER + |table|] == table
    requires FromLittleEndian(f[..4]) == SEGMENT_MAGIC && FromLittleEndian(f[4..6]) == SEGMENT_VERSION
    requires FromLittleEndian(f[16..20]) == |table|
    ensures Crc(table) != FromLittleEndian(f[20..24]) ==> ReadFile(Some(f), decodeTags) == Failed(TableDamaged)
    ensures Crc(table) == FromLittleEndian(f[20..24]) && decodeTags(table).None? ==>
              ReadFile(Some(f), decodeTags) == Failed(TableMalformed)
  {
    hide FromLittleEndian, Crc, Scan;
  }

  lemma SameLength(x: seq<byte>, y: seq<byte>)
    requires Crc32c.Burst(x, y)
    ensures |x| == |y|
  {
    hide Crc32c.MessageBits;
  }

  lemma DifferentCrc(x: seq<byte>, y: seq<byte>)
    requires Crc32c.ChecksumValue(x) != Crc32c.ChecksumValue(y)
    ensures Crc(x) != Crc(y)
  {
    hide Crc32c.ChecksumValue;
  }

  lemma PrefixFields(createdMs: u64, table: Table)
    ensures var p := SegmentPrefix(createdMs, table);
            && FromLittleEndian(p[..4]) == SEGMENT_MAGIC && FromLittleEndian(p[4..6]) == SEGMENT_VERSION
            && FromLittleEndian(p[16..20]) == |table| && FromLittleEndian(p[20..24]) == Crc(table)
            && p[SEGMENT_HEADER..SEGMENT_HEADER + |table|] == table
  {
    hide LittleEndian, FromLittleEndian, Pow256, Crc;
    Pow256Values();
    DecodeEncode(SEGMENT_MAGIC, 4);
    DecodeEncode(SEGMENT_VERSION, 2);
    DecodeEncode(|table|, 4);
    DecodeEncode(Crc(table), 4);
    var p := SegmentPrefix(createdMs, table);
    assert p[..4] == LittleEndian(SEGMENT_MAGIC, 4) && p[4..6] == LittleEndian(SEGMENT_VERSION, 2);
    assert p[16..20] == LittleEndian(|table|, 4) && p[20..24] == LittleEndian(Crc(table), 4);
  }

  /** A file cut inside its prefix delivers nothing, whether the reader refuses it or not. */
  lemma ReadCutPrefix<T>(createdMs: u64, table: Table, n: nat, decodeTags: seq<byte> -> Option<T>)
    requires decodeTags(table).Some? && n < |SegmentPrefix(createdMs, table)|
    ensures var r := ReadFile(Some(SegmentPrefix(createdMs, table)[..n]), decodeTags);
            r.Read? ==> r.outcome.delivered == []
  {
    hide LittleEndian, FromLittleEndian, Pow256, Scan, Crc;
    var f := SegmentPrefix(createdMs, table)[..n];
    if n >= SEGMENT_HEADER {
      Pow256Values();
      DecodeEncode(|table|, 4);
      var whole := SegmentPrefix(createdMs, table);
      assert whole[16..20] == LittleEndian(|table|, 4);
      assert f[16..20] == whole[16..20];
    }
  }

  /** A segment file reads back to the batches written to it. */
  lemma FileRoundTrip<T>(createdMs: u64, table: Table, batches: seq<Batch>, decodeTags: seq<byte> -> Option<T>)
    requires decodeTags(table).Some?
    ensures ReadFile(Some(SegmentPrefix(createdMs, table) + Encode(batches)), decodeTags)
         == Read(decodeTags(table).value, createdMs, Outcome(batches, 0, false))
  {
    ReadPrefixed(createdMs, table, Encode(batches), decodeTags);
    RoundTrip(batches);
  }

  /** The file a crash leaves behind, cut anywhere after its prefix. */
  lemma CrashedFile<T>(createdMs: u64, table: Table, batches: seq<Batch>, cut: nat, decodeTags: seq<byte> -> Option<T>)
    requires decodeTags(table).Some?
    requires |SegmentPrefix(createdMs, table)| <= cut <= |SegmentPrefix(createdMs, table) + Encode(batches)|
    ensures var body := cut - |SegmentPrefix(createdMs, table)|;
            var k := WholeBatches(batches, body);
            && |Encode(batches[..k])| <= body && (k < |batches| ==> body < |Encode(batches[..k + 1])|)
            && ReadFile(Some((SegmentPrefix(createdMs, table) + Encode(batches))[..cut]), decodeTags)
            == Read(decodeTags(table).value, createdMs, Outcome(batches[..k], 0, body != |Encode(batches[..k])|))
  {
    hide ReadFile, SegmentPrefix, Encode, Scan;
    var prefix := SegmentPrefix(createdMs, table);
    var body := cut - |prefix|;
    assert (prefix + Encode(batches))[..cut] == prefix + Encode(batches)[..body];
    ReadPrefixed(createdMs, table, Encode(batches)[..body], decodeTags);
    Truncation(batches, body);
    WholeBatchesFit(batches, body);
  }

  /** A file with damage within 32 consecutive bits of one batch's samples. */
  lemma DamagedFile<T>(createdMs: u64, table: Table, first: seq<Batch>, b: Batch, damaged: seq<byte>, last: seq<Batch>,
                       decodeTags: seq<byte> -> Option<T>)
    requires decodeTags(table).Some? && Crc32c.Burst(Payload(b), damaged)
    ensures var body := Encode(first) + (HeaderBytes(BatchHeaderOf(b)) + damaged + Encode(last));
            ReadFile(Some(SegmentPrefix(createdMs, table) + body), decodeTags)
            == Read(decodeTags(table).value, createdMs, Outcome(first + last, 1, false))
  {
    hide ReadFile, SegmentPrefix, Encode, Scan, HeaderBytes, Crc32c.Burst;
    PayloadDamage(first, b, damaged, last);
    ReadPrefixed(createdMs, table, Encode(first) + (HeaderBytes(BatchHeaderOf(b)) + damaged + Encode(last)), decodeTags);
  }

  /** A file in which the magic word of one batch was overwritten. */
  lemma UnmarkedFile<T>(createdMs: u64, table: Table, first: seq<Batch>, b: Batch, word: seq<byte>, last: seq<Batch>,
                        decodeTags: seq<byte> -> Option<T>)
    requires decodeTags(table).Some?
    requires |word| == 4 && !SpellsMagic(word) && NoMagic(BatchBytes(b), 8)
    ensures var body := Encode(first) + (word + BatchBytes(b)[4..] + Encode(last));
            ReadFile(Some(SegmentPrefix(createdMs, table) + body), decodeTags)
            == Read(decodeTags(table).value, createdMs, Outcome(first + last, 1, last == []))
  {
    hide ReadFile, SegmentPrefix, Encode, Scan, BatchBytes;
    DestroyedMagic(first, b, word, last);
    ReadPrefixed(createdMs, table, Encode(first) + (word + BatchBytes(b)[4..] + Encode(last)), decodeTags);
  }

  function SampleCount(batches: seq<Batch>): nat {
    if batches == [] then 0 else |batches[0]| + SampleCount(batches[1..])
  }

  lemma {:induction false} SampleCountAppend(batches: seq<Batch>, b: Batch)
    ensures SampleCount(batches + [b]) == SampleCount(batches) + |b|
  {
    if batches != [] {
      SampleCountAppend(batches[1..], b);
      assert (batches + [b])[1..] == batches[1..] + [b];
    }
  }

  lemma ResyncStep(f: seq<byte>, pos: nat)
    requires pos + BATCH_HEADER <= |f| && !SpellsMagic(f[pos..pos + 4])
    ensures Resync(f[pos..]) == Resync(f[pos + 8..])
  {
    assert f[pos..][..4] == f[pos..pos + 4] && f[pos..][8..] == f[pos + 8..];
  }

  /** The inner loop: look for the next magic on an eight-byte boundary. */
  method FindBatch(f: seq<byte>, start: nat) returns (pos: nat)
    requires start <= |f|
    ensures start <= pos <= |f| && (pos - start) % 8 == 0
    ensures f[pos..] == Resync(f[start..])
  {
    pos := start;
    while pos + BATCH_HEADER <= |f|
      invariant start <= pos <= |f| && (pos - start) % 8 == 0
      invariant Resync(f[pos..]) == Resync(f[start..])
    {
      assert f[pos..][..4] == f[pos..pos + 4];
      if FromLittleEndian(f[pos..pos + 4]) == BATCH_MAGIC {
        break;
      }
      ResyncStep(f, pos);
      pos := pos + 8;
    }
  }

  lemma PeekHeader(rest: seq<byte>)
    requires |rest| >= BATCH_HEADER
    ensures var (status, h, size) := Peek(rest[..BATCH_HEADER]);
            && (status in {DecodeStatus.BadMagic, DecodeStatus.UnsupportedVersion} <==> Unreadable(rest))
            && (!Unreadable(rest) ==> h == Header(rest) && size == RequiredSize(h.count))
  {
    hide HeaderAt;
    assert rest[..BATCH_HEADER][..BATCH_HEADER] == rest[..BATCH_HEADER];
  }

  lemma AfterStep(delivered: seq<Batch>, corrupt: nat, b: Batch, o: Outcome)
    ensures After(delivered, corrupt, Deliver(b, o)) == After(delivered + [b], corrupt, o)
    ensures After(delivered, corrupt, Skip(o)) == After(delivered, corrupt + 1, o)
    ensures o.delivered == [] ==> After(delivered, corrupt, o) == Outcome(delivered, corrupt + o.corrupt, o.truncated)
  {
    assert delivered + ([b] + o.delivered) == delivered + [b] + o.delivered;
  }

  /** One round of the reader at `pos`: the header cannot be read, or its batch is not all there. */
  lemma RoundWithoutBatch(f: seq<byte>, pos: nat)
    requires pos + BATCH_HEADER <= |f|
    ensures Unreadable(f[pos..]) ==> Scan(f[pos..]) == Skip(Scan(Resync(f[pos + 8..])))
    ensures !Unreadable(f[pos..]) && pos + RequiredSize(Header(f[pos..]).count) > |f| ==>
              Scan(f[pos..]) == Outcome([], 0, true)
  {
    hide HeaderAt, Crc, Resync, SamplesOf, Deliver, Skip;
    assert f[pos..][8..] == f[pos + 8..];
  }

  /** Or a batch is there, which verifies or does not. */
  lemma RoundWithBatch(f: seq<byte>, pos: nat, size: nat, payload: seq<byte>)
    requires pos + BATCH_HEADER <= |f| && !Unreadable(f[pos..]) && size == RequiredSize(Header(f[pos..]).count)
    requires pos + size <= |f| && payload == f[pos..][BATCH_HEADER..size]
    ensures |payload| % SAMPLE == 0 && |SamplesOf(payload)| == Header(f[pos..]).count
    ensures Scan(f[pos..])
         == if Crc(payload) == Header(f[pos..]).payloadCrc then Deliver(SamplesOf(payload), Scan(f[pos + size..]))
            else Skip(Scan(f[pos + size..]))
  {
    hide HeaderAt, Crc, Resync, SamplesOf, Deliver, Skip;
    assert f[pos..][size..] == f[pos + size..];
  }

  lemma ScanEnd(rest: seq<byte>)
    requires |rest| < BATCH_HEADER
    ensures Scan(rest) == Outcome([], 0, rest != [])
  {}

  method ScanFile(f: seq<byte>, start: nat) returns (outcome: Outcome, samples: nat)
    requires start <= |f|
    ensures outcome == Scan(f[start..])
    ensures samples == SampleCount(outcome.delivered)
  {
    hide Scan, Peek, Crc, Resync, SamplesOf, Header, Unreadable, After, Deliver, Skip, SampleCount;
    var pos := start;
    outcome, samples := Outcome([], 0, false), 0;
    NothingRead(Scan(f[pos..]));
    while pos < |f|
      invariant start <= pos <= |f|
      invariant !outcome.truncated && samples == SampleCount(outcome.delivered)
      invariant Scan(f[start..]) == After(outcome.delivered, outcome.corrupt, Scan(f[pos..]))
      decreases |f| - pos
    {
      var rest := f[pos..];
      if |f| - pos < BATCH_HEADER {
        ScanEnd(rest);
        AfterStep(outcome.delivered, outcome.corrupt, [], Scan(rest));
        return outcome.(truncated := true), samples;
      }
      var (status, h, size) := Peek(rest[..BATCH_HEADER]);
      PeekHeader(rest);
      RoundWithoutBatch(f, pos);
      if status == DecodeStatus.BadMagic || status == DecodeStatus.UnsupportedVersion {
        pos := FindBatch(f, pos + 8);
        AfterStep(outcome.delivered, outcome.corrupt, [], Scan(f[pos..]));
        outcome := outcome.(corrupt := outcome.corrupt + 1);
        continue;
      }
      if pos + size > |f| {
        AfterStep(outcome.delivered, outcome.corrupt, [], Scan(rest));
        return outcome.(truncated := true), samples;
      }
      var payload := rest[BATCH_HEADER..size];
      RoundWithBatch(f, pos, size, payload);
      AfterStep(outcome.delivered, outcome.corrupt, SamplesOf(payload), Scan(f[pos + size..]));
      if Crc(payload) == h.payloadCrc {
        SampleCountAppend(outcome.delivered, SamplesOf(payload));
        samples := samples + h.count;
        outcome := outcome.(delivered := outcome.delivered + [SamplesOf(payload)]);
      } else {
        outcome := outcome.(corrupt := outcome.corrupt + 1);
      }
      pos := pos + size;
    }
    ScanEnd(f[pos..]);
    AfterStep(outcome.delivered, outcome.corrupt, [], Scan(f[pos..]));
  }

  lemma NothingRead(o: Outcome)
    ensures After([], 0, o) == o && SampleCount([]) == 0
  {}

  method ReadSegment<T>(file: Option<seq<byte>>, decodeTags: seq<byte> -> Option<T>)
      returns (result: ReadResult<T>, batches: nat, samples: nat)
    ensures result == ReadFile(file, decodeTags)
    ensures result.Read? ==> batches == |result.outcome.delivered|
    ensures result.Read? ==> samples == SampleCount(result.outcome.delivered)
  {
    hide Scan, Crc;
    batches, samples := 0, 0;
    if file.None? { return Failed(CannotOpen), 0, 0; }
    var f := file.value;
    if |f| < SEGMENT_HEADER { return Failed(FileTooShort), 0, 0; }
    if FromLittleEndian(f[..4]) != SEGMENT_MAGIC { return Failed(NotASegment), 0, 0; }
    if FromLittleEndian(f[4..6]) != SEGMENT_VERSION { return Failed(UnknownVersion), 0, 0; }
    var tableEnd := SEGMENT_HEADER + FromLittleEndian(f[16..20]);
    if tableEnd > |f| { return Failed(TableTooLong), 0, 0; }
    var table := f[SEGMENT_HEADER..tableEnd];
    if Crc(table) != FromLittleEndian(f[20..24]) { return Failed(TableDamaged), 0, 0; }
    var tags := decodeTags(table);
    if tags.None? { return Failed(TableMalformed), 0, 0; }
    Pow256Values();
    var outcome := Outcome([], 0, false);
    if AlignUp(tableEnd) <= |f| {
      outcome, samples := ScanFile(f, AlignUp(tableEnd));
    }
    batches := |outcome.delivered|;
    result := Read(tags.value, FromLittleEndian(f[8..16]), outcome);
  }
}
