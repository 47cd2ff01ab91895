/** Reading a segment: delivers every batch that verifies, skips damaged ones, finds the next
    batch after a lost header and reports a cut-off tail. */
module SegmentReader {
  import opened Bytes
  import opened Octets
  import opened SegmentFormat
  import opened Sequences
  import Crc32c

  datatype Outcome = Outcome(delivered: seq<Batch>, corrupt: nat, truncated: bool)

  function Deliver(b: Batch, o: Outcome): Outcome { o.(delivered := [b] + o.delivered) }

  function Skip(o: Outcome): Outcome { o.(corrupt := o.corrupt + 1) }

  function After(first: seq<Batch>, corrupt: nat, o: Outcome): Outcome {
    Outcome(first + o.delivered, corrupt + o.corrupt, o.truncated)
  }

  predicate SpellsMagic(word: seq<byte>)
    requires |word| == 4
  {
    FromLittleEndian(word) == BATCH_MAGIC
  }

  /** Scans forward in steps of eight bytes for the next word that looks like a batch. */
  function Resync(rest: seq<byte>): (r: seq<byte>)
    ensures |r| <= |rest|
  {
    if |rest| < BATCH_HEADER || SpellsMagic(rest[..4]) then rest else Resync(rest[8..])
  }

  /** The header in front of `rest`. */
  function Header(rest: seq<byte>): BatchHeader
    requires |rest| >= BATCH_HEADER
  {
    HeaderAt(rest[..BATCH_HEADER])
  }

  predicate Unreadable(rest: seq<byte>)
    requires |rest| >= BATCH_HEADER
  {
    Header(rest).magic != BATCH_MAGIC || Header(rest).version != BATCH_VERSION
  }

  /** What is read from the bytes that follow the tag table. */
  function Scan(rest: seq<byte>): Outcome
    decreases |rest|
  {
    if rest == [] then Outcome([], 0, false)
    else if |rest| < BATCH_HEADER then Outcome([], 0, true)
    else if Unreadable(rest) then Skip(Scan(Resync(rest[8..])))
    else if RequiredSize(Header(rest).count) > |rest| then Outcome([], 0, true)
    else
      var size := RequiredSize(Header(rest).count);
      var payload := rest[BATCH_HEADER..size];
      assert |payload| == SAMPLE * Header(rest).count;
      if Crc(payload) == Header(rest).payloadCrc then Deliver(SamplesOf(payload), Scan(rest[size..]))
      else Skip(Scan(rest[size..]))
  }

  // ---------------------------------------------------------------------
  // Well-formed batches
  // ---------------------------------------------------------------------

  function Encode(batches: seq<Batch>): (bytes: seq<byte>) {
    if batches == [] then [] else BatchBytes(batches[0]) + Encode(batches[1..])
  }

  lemma EncodeCons(batches: seq<Batch>)
    requires batches != []
    ensures Encode(batches) == BatchBytes(batches[0]) + Encode(batches[1..])
  {}

  lemma {:induction false} EncodeConcat(a: seq<Batch>, b: seq<Batch>)
    ensures Encode(a + b) == Encode(a) + Encode(b)
  {
    if a == [] {
      assert a + b == b && Encode(a) == [];
    } else {
      hide BatchBytes, Encode;
      TailOfConcat(a, b);
      EncodeConcat(a[1..], b);
      EncodeCons(a);
      EncodeCons(a + b);
      Regroup(BatchBytes(a[0]), Encode(a[1..]), Encode(b));
    }
  }

  lemma ScanBatch(b: Batch, tail: seq<byte>)
    ensures Scan(BatchBytes(b) + tail) == Deliver(b, Scan(tail))
  {
    hide HeaderAt, HeaderBytes, Crc, Payload, SamplesOf;
    var rest := BatchBytes(b) + tail;
    HeaderRoundTrip(BatchHeaderOf(b));
    PayloadRoundTrip(b);
    assert rest[..BATCH_HEADER] == HeaderBytes(BatchHeaderOf(b));
    assert rest[BATCH_HEADER..RequiredSize(|b|)] == Payload(b);
    assert rest[RequiredSize(|b|)..] == tail;
  }

  lemma {:induction false} ScanBatches(batches: seq<Batch>, tail: seq<byte>)
    ensures Scan(Encode(batches) + tail) == After(batches, 0, Scan(tail))
  {
    hide Scan, BatchBytes;
    if batches == [] {
      assert Encode(batches) + tail == tail;
    } else {
      ScanBatches(batches[1..], tail);
      ScanBatch(batches[0], Encode(batches[1..]) + tail);
      assert Encode(batches) + tail == BatchBytes(batches[0]) + (Encode(batches[1..]) + tail);
      assert [batches[0]] + batches[1..] == batches;
    }
  }

  lemma ScanNothing()
    ensures Scan([]) == Outcome([], 0, false)
  {}

  /** Reading back what was written gives the same batches, in order, with nothing reported. */
  lemma RoundTrip(batches: seq<Batch>)
    ensures Scan(Encode(batches)) == Outcome(batches, 0, false)
  {
    hide Scan;
    ScanBatches(batches, []);
    ScanNothing();
    assert Encode(batches) + [] == Encode(batches);
  }

  // ---------------------------------------------------------------------
  // Truncation
  // ---------------------------------------------------------------------

  /** How many batches lie wholly inside the first `cut` bytes. */
  function WholeBatches(batches: seq<Batch>, cut: nat): (k: nat)
    ensures k <= |batches|
  {
    if batches == [] || RequiredSize(|batches[0]|) > cut then 0
    else 1 + WholeBatches(batches[1..], cut - RequiredSize(|batches[0]|))
  }

  lemma {:induction false} WholeBatchesFit(batches: seq<Batch>, cut: nat)
    ensures var k := WholeBatches(batches, cut);
            && |Encode(batches[..k])| <= cut
            && (k < |batches| ==> cut < |Encode(batches[..k + 1])|)
  {
    hide BatchBytes;
    if batches != [] {
      var size := RequiredSize(|batches[0]|);
      if size <= cut {
        var k := WholeBatches(batches[1..], cut - size);
        WholeBatchesFit(batches[1..], cut - size);
        assert batches[..k + 1][1..] == batches[1..][..k];
        assert k < |batches[1..]| ==> batches[..k + 2][1..] == batches[1..][..k + 1];
      } else {
        assert Encode(batches[..1]) == BatchBytes(batches[0]) + Encode(batches[..1][1..]);
      }
    }
  }

  /** Behind whole batches and part of one more lie exactly those batches, and that one too
      when all of it is there. */
  lemma {:induction false} WholeBatchesPush(batches: seq<Batch>, b: Batch, n: nat)
    requires n <= RequiredSize(|b|)
    ensures WholeBatches(batches + [b], |Encode(batches)| + n)
         == |batches| + if n == RequiredSize(|b|) then 1 else 0
  {
    hide BatchBytes;
    if batches == [] {
      assert [] + [b] == [b] && [b][1..] == [];
    } else {
      WholeBatchesPush(batches[1..], b, n);
      assert (batches + [b])[1..] == batches[1..] + [b];
    }
  }

  lemma ScanPartial(b: Batch, cut: nat)
    requires 0 < cut < RequiredSize(|b|)
    ensures Scan(BatchBytes(b)[..cut]) == Outcome([], 0, true)
  {
    hide Payload, Crc, HeaderAt, HeaderBytes;
    var rest := BatchBytes(b)[..cut];
    if cut >= BATCH_HEADER {
      HeaderRoundTrip(BatchHeaderOf(b));
      assert rest[..BATCH_HEADER] == HeaderBytes(BatchHeaderOf(b));
    }
  }

  /** A segment cut anywhere yields exactly its whole batches, no damage, and a truncation
      report exactly when the cut is not between two batches. */
  lemma {:induction false} Truncation(batches: seq<Batch>, cut: nat)
    requires cut <= |Encode(batches)|
    ensures var k := WholeBatches(batches, cut);
            Scan(Encode(batches)[..cut]) == Outcome(batches[..k], 0, cut != |Encode(batches[..k])|)
  {
    hide Scan, BatchBytes;
    var bytes := Encode(batches)[..cut];
    if batches == [] || cut == 0 {
      assert bytes == [];
      ScanNothing();
    } else if cut < RequiredSize(|batches[0]|) {
      assert bytes == BatchBytes(batches[0])[..cut];
      ScanPartial(batches[0], cut);
    } else {
      var size := RequiredSize(|batches[0]|);
      Truncation(batches[1..], cut - size);
      assert bytes == BatchBytes(batches[0]) + Encode(batches[1..])[..cut - size];
      ScanBatch(batches[0], Encode(batches[1..])[..cut - size]);
      var k := WholeBatches(batches, cut);
      assert batches[..k][1..] == batches[1..][..k - 1] && [batches[0]] + batches[1..][..k - 1] == batches[..k];
    }
  }

  // ---------------------------------------------------------------------
  // Damage
  // ---------------------------------------------------------------------

  lemma ScanDamagedPayload(b: Batch, damaged: seq<byte>, tail: seq<byte>)
    requires Crc32c.Burst(Payload(b), damaged)
    ensures Scan(HeaderBytes(BatchHeaderOf(b)) + damaged + tail) == Skip(Scan(tail))
  {
    hide HeaderAt, HeaderBytes, Payload, SamplesOf;
    var rest := HeaderBytes(BatchHeaderOf(b)) + damaged + tail;
    HeaderRoundTrip(BatchHeaderOf(b));
    Crc32c.BurstChangesValue(Payload(b), damaged);
    hide Crc32c.ChecksumValue, Crc32c.SameOutside;
    assert rest[..BATCH_HEADER] == HeaderBytes(BatchHeaderOf(b));
    assert rest[BATCH_HEADER..RequiredSize(|b|)] == damaged;
    assert rest[RequiredSize(|b|)..] == tail;
  }

  /** Damage within 32 consecutive bits of one batch's samples costs exactly that batch. */
  lemma PayloadDamage(first: seq<Batch>, b: Batch, damaged: seq<byte>, last: seq<Batch>)
    requires Crc32c.Burst(Payload(b), damaged)
    ensures Scan(Encode(first) + (HeaderBytes(BatchHeaderOf(b)) + damaged + Encode(last)))
         == Outcome(first + last, 1, false)
  {
    hide Scan, Crc32c.Burst;
    ScanBatches(first, HeaderBytes(BatchHeaderOf(b)) + damaged + Encode(last));
    ScanDamagedPayload(b, damaged, Encode(last));
    RoundTrip(last);
  }

  predicate MagicAt(bytes: seq<byte>, i: nat) {
    i + 4 <= |bytes| && SpellsMagic(bytes[i..i + 4])
  }

  /** No word on an eight-byte boundary, from `from` on, looks like the start of a batch. */
  ghost predicate NoMagic(bytes: seq<byte>, from: nat) {
    forall i: nat :: from <= i && i % 8 == 0 ==> !MagicAt(bytes, i)
  }

  lemma DropEight(junk: seq<byte>, from: nat)
    requires |junk| >= 8 && from <= 8 && NoMagic(junk, from)
    ensures NoMagic(junk[8..], 0)
  {
    forall i: nat | i % 8 == 0 ensures !MagicAt(junk[8..], i) {
      if i + 4 <= |junk[8..]| {
        assert junk[8..][i..i + 4] == junk[i + 8..i + 8 + 4];
        assert !MagicAt(junk, i + 8);
      }
    }
  }

  lemma {:induction false} ResyncPast(junk: seq<byte>, tail: seq<byte>)
    requires |junk| % 8 == 0 && NoMagic(junk, 0)
    requires |tail| >= BATCH_HEADER && SpellsMagic(tail[..4])
    ensures Resync(junk + tail) == tail
    decreases |junk|
  {
    hide SpellsMagic;
    if junk == [] {
      assert junk + tail == tail;
    } else {
      assert (junk + tail)[..4] == junk[0..0 + 4] && !MagicAt(junk, 0);
      assert (junk + tail)[8..] == junk[8..] + tail;
      DropEight(junk, 0);
      ResyncPast(junk[8..], tail);
    }
  }

  lemma {:induction false} ResyncToTail(junk: seq<byte>)
    requires |junk| % 8 == 0 && |junk| >= 8 && NoMagic(junk, 0)
    ensures |Resync(junk)| == 8
    decreases |junk|
  {
    hide SpellsMagic;
    if |junk| > 8 {
      assert junk[..4] == junk[0..0 + 4] && !MagicAt(junk, 0);
      DropEight(junk, 0);
      ResyncToTail(junk[8..]);
    }
  }

  lemma EncodeStartsWithMagic(batches: seq<Batch>)
    requires batches != []
    ensures |Encode(batches)| >= BATCH_HEADER && SpellsMagic(Encode(batches)[..4])
  {
    hide Payload, HeaderBytes, Crc;
    HeaderRoundTrip(BatchHeaderOf(batches[0]));
    assert Encode(batches)[..4] == HeaderBytes(BatchHeaderOf(batches[0]))[..4];
  }

  /** A region whose first header cannot be read and which contains nothing that could be
      taken for a batch. It may span several whole batches. */
  ghost predicate LostRegion(junk: seq<byte>) {
    |junk| % 8 == 0 && |junk| >= BATCH_HEADER && Unreadable(junk) && NoMagic(junk, 8)
  }

  lemma LostTail(junk: seq<byte>, tail: seq<byte>)
    requires LostRegion(junk)
    ensures Scan(junk + tail) == Skip(Scan(Resync(junk[8..] + tail)))
    ensures NoMagic(junk[8..], 0)
  {
    hide HeaderAt, Resync, MagicAt;
    assert (junk + tail)[..BATCH_HEADER] == junk[..BATCH_HEADER];
    assert (junk + tail)[8..] == junk[8..] + tail;
    DropEight(junk, 8);
  }

  lemma LostBeforeBatch(junk: seq<byte>, last: seq<Batch>)
    requires last != [] && LostRegion(junk)
    ensures Scan(junk + Encode(last)) == Outcome(last, 1, false)
  {
    hide Scan, SpellsMagic, Unreadable, Encode, MagicAt;
    LostTail(junk, Encode(last));
    EncodeStartsWithMagic(last);
    ResyncPast(junk[8..], Encode(last));
    RoundTrip(last);
  }

  lemma LostAtEnd(junk: seq<byte>)
    requires LostRegion(junk)
    ensures Scan(junk) == Outcome([], 1, true)
  {
    hide Scan, SpellsMagic, Unreadable, Resync, Encode, MagicAt;
    LostTail(junk, []);
    assert junk + [] == junk && junk[8..] + [] == junk[8..];
    ResyncToTail(junk[8..]);
    ScanShort(Resync(junk[8..]));
  }

  /** A lost region costs only itself and is counted once. When nothing follows it, the search
      stops eight bytes short of the end, which is reported as a cut-off batch although nothing
      was cut off. */
  lemma LostHeader(first: seq<Batch>, junk: seq<byte>, last: seq<Batch>)
    requires LostRegion(junk)
    ensures Scan(Encode(first) + (junk + Encode(last))) == Outcome(first + last, 1, last == [])
  {
    hide Scan, LostRegion, Encode;
    ScanBatches(first, junk + Encode(last));
    if last == [] {
      LostAtEnd(junk);
      EncodeNone();
      assert junk + [] == junk;
    } else {
      LostBeforeBatch(junk, last);
    }
  }

  lemma EncodeNone()
    ensures Encode([]) == []
  {}

  lemma ScanShort(rest: seq<byte>)
    requires 0 < |rest| < BATCH_HEADER
    ensures Scan(rest) == Outcome([], 0, true)
  {}

  /** One batch whose magic word was overwritten, everything after it being whatever it is. */
  lemma DestroyedMagic(first: seq<Batch>, b: Batch, word: seq<byte>, last: seq<Batch>)
    requires |word| == 4 && !SpellsMagic(word)
    requires NoMagic(BatchBytes(b), 8)
    ensures Scan(Encode(first) + (word + BatchBytes(b)[4..] + Encode(last))) == Outcome(first + last, 1, last == [])
  {
    hide Scan, BatchBytes, Encode;
    var junk := word + BatchBytes(b)[4..];
    forall i: nat | 8 <= i && i % 8 == 0 ensures !MagicAt(junk, i) {
      assert !MagicAt(BatchBytes(b), i);
      if i + 4 <= |junk| {
        assert junk[i..i + 4] == BatchBytes(b)[i..i + 4];
      }
    }
    assert junk[..BATCH_HEADER][..4] == word;
    assert |junk| == 8 * (2 + 3 * |b|);
    LostHeader(first, junk, last);
  }

  // ---------------------------------------------------------------------
  // Arbitrary bytes
  // ---------------------------------------------------------------------

  lemma {:induction false} ResyncDrops(rest: seq<byte>)
    ensures var k := |rest| - |Resync(rest)|; k % 8 == 0 && Resync(rest) == rest[k..]
    decreases |rest|
  {
    hide SpellsMagic;
    if !(|rest| < BATCH_HEADER || SpellsMagic(rest[..4])) {
      ResyncDrops(rest[8..]);
    }
  }

  /** A batch that verifies stands at this eight-byte boundary. */
  ghost predicate BatchAt(rest: seq<byte>, i: nat, b: Batch) {
    i % 8 == 0 && i + RequiredSize(|b|) <= |rest| && Decode(rest[i..]) == (Ok, b)
  }

  ghost predicate Locates(rest: seq<byte>, offsets: seq<nat>, batches: seq<Batch>) {
    && |offsets| == |batches|
    && (forall k :: 0 <= k < |offsets| ==> BatchAt(rest, offsets[k], batches[k]))
    && (forall j, k :: 0 <= j < k < |offsets| ==> offsets[j] + RequiredSize(|batches[j]|) <= offsets[k])
  }

  lemma ShiftLocated(rest: seq<byte>, d: nat, offsets: seq<nat>, batches: seq<Batch>) returns (moved: seq<nat>)
    requires d % 8 == 0 && d <= |rest| && Locates(rest[d..], offsets, batches)
    ensures Locates(rest, moved, batches) && forall k :: 0 <= k < |moved| ==> d <= moved[k]
  {
    hide Decode;
    moved := seq(|offsets|, k requires 0 <= k < |offsets| => offsets[k] + d);
    forall k | 0 <= k < |offsets| ensures BatchAt(rest, moved[k], batches[k]) {
      assert BatchAt(rest[d..], offsets[k], batches[k]);
      assert rest[d..][offsets[k]..] == rest[moved[k]..];
    }
  }

  /** The payload the first header announces. */
  function FirstPayload(rest: seq<byte>): (payload: seq<byte>)
    requires |rest| >= BATCH_HEADER && RequiredSize(Header(rest).count) <= |rest|
    ensures |payload| % SAMPLE == 0 && |payload| / SAMPLE == Header(rest).count
  {
    rest[BATCH_HEADER..RequiredSize(Header(rest).count)]
  }

  predicate FirstVerifies(rest: seq<byte>)
    requires |rest| >= BATCH_HEADER && RequiredSize(Header(rest).count) <= |rest|
  {
    Crc(FirstPayload(rest)) == Header(rest).payloadCrc
  }

  lemma FirstBatch(rest: seq<byte>)
    requires |rest| >= BATCH_HEADER && !Unreadable(rest) && RequiredSize(Header(rest).count) <= |rest|
    requires FirstVerifies(rest)
    ensures BatchAt(rest, 0, SamplesOf(FirstPayload(rest)))
    ensures RequiredSize(|SamplesOf(FirstPayload(rest))|) == RequiredSize(Header(rest).count)
  {
    hide HeaderAt, SamplesOf, Crc;
    assert rest[0..] == rest;
  }

  lemma LocatedAfterJunk(rest: seq<byte>, later: seq<nat>) returns (offsets: seq<nat>)
    requires |rest| >= BATCH_HEADER && Unreadable(rest)
    requires Locates(Resync(rest[8..]), later, Scan(Resync(rest[8..])).delivered)
    ensures Locates(rest, offsets, Scan(rest).delivered)
    ensures |Resync(rest[8..])| + 8 <= |rest|
  {
    hide HeaderAt, SamplesOf, Crc, SpellsMagic, Resync, BatchAt, Header, Locates;
    ResyncDrops(rest[8..]);
    var next := Resync(rest[8..]);
    var d := |rest| - |next|;
    assert next == rest[d..];
    offsets := ShiftLocated(rest, d, later, Scan(next).delivered);
  }

  lemma ScanReadable(rest: seq<byte>)
    requires |rest| >= BATCH_HEADER && !Unreadable(rest) && RequiredSize(Header(rest).count) <= |rest|
    ensures var later := Scan(rest[RequiredSize(Header(rest).count)..]).delivered;
            Scan(rest).delivered == if FirstVerifies(rest) then [SamplesOf(FirstPayload(rest))] + later else later
  {
    hide HeaderAt, SamplesOf, Crc, Resync, Header;
  }

  lemma PrependLocated(rest: seq<byte>, offsets: seq<nat>, batches: seq<Batch>, b: Batch)
    requires Locates(rest, offsets, batches) && BatchAt(rest, 0, b)
    requires forall k :: 0 <= k < |offsets| ==> RequiredSize(|b|) <= offsets[k]
    ensures Locates(rest, [0] + offsets, [b] + batches)
  {
    hide BatchAt;
  }

  lemma LocatedAfterBatch(rest: seq<byte>, later: seq<nat>) returns (offsets: seq<nat>)
    requires |rest| >= BATCH_HEADER && !Unreadable(rest) && RequiredSize(Header(rest).count) <= |rest|
    requires Locates(rest[RequiredSize(Header(rest).count)..], later, Scan(rest[RequiredSize(Header(rest).count)..]).delivered)
    ensures Locates(rest, offsets, Scan(rest).delivered)
  {
    hide Scan, Locates, BatchAt, Header, SamplesOf, FirstPayload, FirstVerifies, Unreadable;
    var size := RequiredSize(Header(rest).count);
    assert size == 8 * (2 + 3 * Header(rest).count);
    ScanReadable(rest);
    var delivered := Scan(rest[size..]).delivered;
    offsets := ShiftLocated(rest, size, later, delivered);
    if FirstVerifies(rest) {
      FirstBatch(rest);
      PrependLocated(rest, offsets, delivered, SamplesOf(FirstPayload(rest)));
      offsets := [0] + offsets;
    }
  }

  /** Whatever the file contains, each delivered batch really stands there and verifies, in
      file order and without overlap, and at most one region is reported per eight bytes. */
  lemma {:induction false} DeliversOnlyVerified(rest: seq<byte>) returns (offsets: seq<nat>)
    ensures Locates(rest, offsets, Scan(rest).delivered)
    ensures 8 * (|Scan(rest).delivered| + Scan(rest).corrupt) <= |rest|
    decreases |rest|
  {
    hide HeaderAt, SamplesOf, Crc, SpellsMagic, Resync, BatchAt, Header;
    offsets := [];
    if |rest| < BATCH_HEADER {
    } else if Unreadable(rest) {
      ResyncDrops(rest[8..]);
      offsets := DeliversOnlyVerified(Resync(rest[8..]));
      offsets := LocatedAfterJunk(rest, offsets);
    } else if RequiredSize(Header(rest).count) <= |rest| {
      offsets := DeliversOnlyVerified(rest[RequiredSize(Header(rest).count)..]);
      offsets := LocatedAfterBatch(rest, offsets);
    }
  }
}
