/** The per-sensor write-ahead log as values: files of fixed-width records, records waiting in
    memory, and what append, flush, read and prune do to them over whole runs. */
module WalLog {
  import opened Octets
  import opened Bytes
  import opened Optional
  import opened Sequences

  type i64 = n: int | -0x8000_0000_0000_0000 <= n < 0x8000_0000_0000_0000

  /** Sensors are identified by name; each has its own file. */
  datatype SensorId = SensorId(name: string)

  /** A time in milliseconds and the bit pattern of a double. */
  datatype Record = Record(ms: i64, value: u64)

  const RECORD := 16
  const TICKS_PER_MS := 1_000_000

  /** Nanoseconds to milliseconds, truncated toward zero. */
  function Truncated(timestamp: int): (ms: int)
    ensures timestamp >= 0 ==> ms * TICKS_PER_MS <= timestamp < (ms + 1) * TICKS_PER_MS
    ensures timestamp <= 0 ==> (ms - 1) * TICKS_PER_MS < timestamp <= ms * TICKS_PER_MS
  {
    if timestamp >= 0 then timestamp / TICKS_PER_MS else -(-timestamp / TICKS_PER_MS)
  }

  function Millis(timestamp: i64): i64 { Truncated(timestamp) }

  // ---------------------------------------------------------------------
  // Files
  // ---------------------------------------------------------------------

  const MODULUS := 0x1_0000_0000_0000_0000

  function RecordBytes(r: Record): (bytes: seq<byte>)
    ensures |bytes| == RECORD
  {
    LittleEndian(if r.ms < 0 then r.ms + MODULUS else r.ms, 8) + LittleEndian(r.value, 8)
  }

  function RecordOf(bytes: seq<byte>): Record
    requires |bytes| == RECORD
  {
    Pow256Values();
    var ms := FromLittleEndian(bytes[..8]);
    Record(if ms >= MODULUS / 2 then ms - MODULUS else ms, FromLittleEndian(bytes[8..]))
  }

  lemma RecordRoundTrip(r: Record)
    ensures RecordOf(RecordBytes(r)) == r
  {
    hide LittleEndian, FromLittleEndian, Pow256;
    Pow256Values();
    var ms := if r.ms < 0 then r.ms + MODULUS else r.ms;
    DecodeEncode(ms, 8);
    DecodeEncode(r.value, 8);
    assert RecordBytes(r)[..8] == LittleEndian(ms, 8) && RecordBytes(r)[8..] == LittleEndian(r.value, 8);
  }

  /** Where both fields of a record lie; a negative time in two's complement. */
  lemma RecordLayout(r: Record)
    ensures var b, ms := RecordBytes(r), if r.ms < 0 then r.ms + 0x1_0000_0000_0000_0000 else r.ms;
            && (forall i | 0 <= i < 8 :: b[i] == ms / Pow256(i) % 256)
            && (forall i | 0 <= i < 8 :: b[8 + i] == r.value / Pow256(i) % 256)
  {
    hide LittleEndian, Pow256;
    var ms: nat := if r.ms < 0 then r.ms + MODULUS else r.ms;
    forall i | 0 <= i < 8
      ensures LittleEndian(ms, 8)[i] == ms / Pow256(i) % 256
      ensures LittleEndian(r.value, 8)[i] == r.value / Pow256(i) % 256
    {
      LittleEndianDigit(ms, 8, i);
      LittleEndianDigit(r.value, 8, i);
    }
  }

  function LogBytes(records: seq<Record>): (bytes: seq<byte>)
    ensures |bytes| == RECORD * |records|
  {
    if records == [] then [] else RecordBytes(records[0]) + LogBytes(records[1..])
  }

  /** All whole records of a file; an incomplete one at the end is ignored. */
  function RecordsOf(file: seq<byte>): (records: seq<Record>)
    ensures |records| == |file| / RECORD
  {
    if |file| < RECORD then [] else [RecordOf(file[..RECORD])] + RecordsOf(file[RECORD..])
  }

  method ReadAll(file: seq<byte>) returns (records: seq<Record>)
    ensures records == RecordsOf(file)
  {
    records := [];
    var pos := 0;
    while |file| - pos >= RECORD
      invariant 0 <= pos <= |file|
      invariant records + RecordsOf(file[pos..]) == RecordsOf(file)
    {
      assert file[pos..][..RECORD] == file[pos..pos + RECORD] && file[pos..][RECORD..] == file[pos + RECORD..];
      records := records + [RecordOf(file[pos..pos + RECORD])];
      pos := pos + RECORD;
    }
  }

  lemma FirstRecord(first: seq<byte>, rest: seq<byte>)
    requires |first| == RECORD
    ensures RecordsOf(first + rest) == [RecordOf(first)] + RecordsOf(rest)
  {
    hide RecordOf;
    assert (first + rest)[..RECORD] == first && (first + rest)[RECORD..] == rest;
  }

  /** Reading back what was written, whatever incomplete record follows it. */
  lemma {:induction false} LogRoundTrip(records: seq<Record>, torn: seq<byte>)
    requires |torn| < RECORD
    ensures RecordsOf(LogBytes(records) + torn) == records
  {
    hide RecordBytes, RecordOf;
    if records == [] {
      assert LogBytes(records) + torn == torn;
    } else {
      RecordRoundTrip(records[0]);
      LogRoundTrip(records[1..], torn);
      FirstRecord(RecordBytes(records[0]), LogBytes(records[1..]) + torn);
      assert LogBytes(records) + torn == RecordBytes(records[0]) + (LogBytes(records[1..]) + torn);
    }
  }

  /** Appending to a file of whole records appends to its records. */
  lemma {:induction false} RecordsAppend(file: seq<byte>, more: seq<byte>)
    requires |file| % RECORD == 0
    ensures RecordsOf(file + more) == RecordsOf(file) + RecordsOf(more)
    decreases |file|
  {
    hide RecordOf;
    if file == [] {
      assert file + more == more;
    } else {
      RecordsAppend(file[RECORD..], more);
      FirstRecord(file[..RECORD], file[RECORD..] + more);
      assert file + more == file[..RECORD] + (file[RECORD..] + more);
    }
  }

  lemma AppendRecords(file: seq<byte>, records: seq<Record>)
    requires |file| % RECORD == 0
    ensures RecordsOf(file + LogBytes(records)) == RecordsOf(file) + records
    ensures |file + LogBytes(records)| % RECORD == 0
  {
    LogRoundTrip(records, []);
    assert LogBytes(records) + [] == LogBytes(records);
    RecordsAppend(file, LogBytes(records));
  }

  /** Behind a torn record the next one is read out of step: it starts with the torn byte. */
  lemma TornAppend(file: seq<byte>, r: Record) returns (misread: Record)
    requires |file| % RECORD != 0 && r.ms % 256 != TornByte(file)
    ensures RecordsOf(file + LogBytes([r])) == RecordsOf(file) + [misread] && misread.ms != r.ms
  {
    hide RecordBytes, RecordOf, RecordsOf;
    var cut := |file| - |file| % RECORD;
    var whole, torn := file[..cut], file[cut..];
    assert file == whole + torn && file + LogBytes([r]) == whole + (torn + LogBytes([r]));
    RecordsAppend(whole, torn);
    RecordsAppend(whole, torn + LogBytes([r]));
    NoRecord(torn);
    assert LogBytes([r]) == RecordBytes(r) + LogBytes([]) == RecordBytes(r);
    misread := OneRecord(torn + RecordBytes(r));
    LowByte((torn + RecordBytes(r))[..RECORD]);
    assert RecordsOf(whole) + [] == RecordsOf(whole);
  }

  /** The first byte of the incomplete record at the end of a file. */
  function TornByte(file: seq<byte>): byte
    requires |file| % RECORD != 0
  {
    file[|file| - |file| % RECORD]
  }

  lemma NoRecord(torn: seq<byte>)
    requires |torn| < RECORD
    ensures RecordsOf(torn) == []
  {}

  lemma OneRecord(bytes: seq<byte>) returns (r: Record)
    requires RECORD <= |bytes| < 2 * RECORD
    ensures RecordsOf(bytes) == [r] && r == RecordOf(bytes[..RECORD])
  {
    r := RecordOf(bytes[..RECORD]);
    hide RecordOf;
    NoRecord(bytes[RECORD..]);
    assert [r] + [] == [r];
  }

  /** A record's time and its first byte agree modulo 256. */
  lemma LowByte(bytes: seq<byte>)
    requires |bytes| == RECORD
    ensures RecordOf(bytes).ms % 256 == bytes[0]
  {
    Pow256Values();
    var low, n := bytes[..8], FromLittleEndian(bytes[..8]);
    assert low[0] == bytes[0] && n == low[0] + 256 * FromLittleEndian(low[1..]);
    hide FromLittleEndian;
    assert n % 256 == low[0];
    assert MODULUS % 256 == 0;
    assert (n - MODULUS) % 256 == n % 256;
  }

  /** The records appended to a file are read back, whatever they are, exactly when the file
      ends with a whole record. */
  lemma AppendsReadBackExactlyWhen(file: seq<byte>)
    ensures |file| % RECORD == 0
       <==> forall records :: RecordsOf(file + LogBytes(records)) == RecordsOf(file) + records
  {
    hide RecordsOf, LogBytes;
    if |file| % RECORD == 0 {
      forall records ensures RecordsOf(file + LogBytes(records)) == RecordsOf(file) + records {
        AppendRecords(file, records);
      }
    } else {
      var r := Record(if TornByte(file) == 0 then 1 else 0, 0);
      var misread := TornAppend(file, r);
      assert (RecordsOf(file) + [misread])[|RecordsOf(file)|] != (RecordsOf(file) + [r])[|RecordsOf(file)|];
    }
  }

  /** An instance: one byte of a record reached the file before a crash. */
  lemma TornTailMisreads()
    ensures RecordsOf([1] + LogBytes([Record(0, 0)])) != RecordsOf([1]) + [Record(0, 0)]
  {
    hide RecordsOf, LogBytes;
    var file: seq<byte> := [1];
    var misread := TornAppend(file, Record(0, 0));
    assert (RecordsOf(file) + [misread])[|RecordsOf(file)|] != (RecordsOf(file) + [Record(0, 0)])[|RecordsOf(file)|];
  }

  // ---------------------------------------------------------------------
  // The writer
  // ---------------------------------------------------------------------

  datatype Wal = Wal(files: map<SensorId, seq<byte>>, pending: map<SensorId, seq<Record>>, batch: nat)

  function FileOf(files: map<SensorId, seq<byte>>, id: SensorId): seq<byte> { if id in files then files[id] else [] }

  function PendingOf(w: Wal, id: SensorId): seq<Record> { if id in w.pending then w.pending[id] else [] }

  /** A sensor's log: what is in its file, then what waits in memory. */
  function Log(w: Wal, id: SensorId): seq<Record> { RecordsOf(FileOf(w.files, id)) + PendingOf(w, id) }

  function Flushed(w: Wal, id: SensorId): Wal {
    w.(files := w.files[id := FileOf(w.files, id) + LogBytes(PendingOf(w, id))], pending := w.pending[id := []])
  }

  function Appended(w: Wal, id: SensorId, r: Record): Wal {
    var buffer := PendingOf(w, id) + [r];
    var t := w.(pending := w.pending[id := buffer]);
    if |buffer| >= w.batch then Flushed(t, id) else t
  }

  function Waiting(w: Wal): set<SensorId> { set id | id in w.pending && w.pending[id] != [] }

  function AllFlushed(w: Wal): Wal {
    w.(files := map id | id in w.files.Keys + Waiting(w) :: FileOf(w.files, id) + LogBytes(PendingOf(w, id)),
       pending := map id | id in w.pending :: [])
  }

  /** Reading a sensor's history flushes it first. */
  function ReadyToRead(w: Wal, id: SensorId): Wal { if PendingOf(w, id) != [] then Flushed(w, id) else w }

  function Kept(records: seq<Record>, cutoff: int): seq<Record> {
    if records == [] then []
    else
      var last := records[|records| - 1];
      Kept(records[..|records| - 1], cutoff) + if last.ms >= cutoff then [last] else []
  }

  function PrunedFile(file: seq<byte>, cutoff: int): seq<byte> {
    var kept := Kept(RecordsOf(file), cutoff);
    if |kept| == |RecordsOf(file)| then file else LogBytes(kept)
  }

  /** Which records of a list have expired. */
  function ExpiredIn(records: seq<Record>, cutoff: int): set<nat> {
    set k: nat | k < |records| && records[k].ms < cutoff
  }

  /** The expired records of these sensors' files, each named by its file and position. */
  function Expired(files: map<SensorId, seq<byte>>, ids: set<SensorId>, cutoff: int): set<(SensorId, nat)> {
    set id, k | id in ids && id in files && k in ExpiredIn(RecordsOf(files[id]), cutoff) :: (id, k)
  }

  function Pruned(w: Wal, cutoff: int): Wal {
    var t := AllFlushed(w);
    t.(files := map id | id in t.files :: PrunedFile(t.files[id], cutoff))
  }

  /** The files of some sensors have been rewritten. */
  function PrunedSome(files: map<SensorId, seq<byte>>, done: set<SensorId>, cutoff: int): map<SensorId, seq<byte>> {
    map id | id in files :: if id in done then PrunedFile(files[id], cutoff) else files[id]
  }

  /** The process dies in a prune that has flushed everything and renamed the rewritten files of
      some sensors into place. */
  function PartlyPruned(w: Wal, done: set<SensorId>, cutoff: int): Wal {
    w.(files := PrunedSome(AllFlushed(w).files, done, cutoff), pending := map[])
  }

  function UpTo<T>(s: seq<T>, n: nat): seq<T> { if n <= |s| then s[..n] else s }

  /** What a flush of this sensor would write; the record of an append that flushes included. */
  function Unsaved(w: Wal, id: SensorId, last: Option<Record>): seq<Record> {
    PendingOf(w, id) + if last.Some? then [last.value] else []
  }

  /** The process dies while it flushes one sensor: `cut` bytes of that flush have reached the
      file, and everything in memory is gone. The writer that starts next finds these files. */
  function Crashed(w: Wal, id: SensorId, last: Option<Record>, cut: nat): Wal {
    w.(files := w.files[id := FileOf(w.files, id) + UpTo(LogBytes(Unsaved(w, id, last)), cut)], pending := map[])
  }

  // ---------------------------------------------------------------------
  // Runs
  // ---------------------------------------------------------------------

  /** Flushes of other sensors that a crashing flush_all, or the one that starts a prune, got
      through first are Read events. */
  datatype Event =
    | Append(id: SensorId, record: Record)
    | FlushAll
    | Read(id: SensorId)
    | Prune(cutoff: int)
    | Crash(id: SensorId, last: Option<Record>, cut: nat)
    | PruneCrash(done: set<SensorId>, cutoff: int)

  function Next(w: Wal, e: Event): Wal {
    match e
    case Append(id, r) => Appended(w, id, r)
    case FlushAll => AllFlushed(w)
    case Read(id) => ReadyToRead(w, id)
    case Prune(cutoff) => Pruned(w, cutoff)
    case Crash(id, last, cut) => Crashed(w, id, last, cut)
    case PruneCrash(done, cutoff) => PartlyPruned(w, done, cutoff)
  }

  function After(w: Wal, events: seq<Event>): Wal {
    if events == [] then w else Next(After(w, events[..|events| - 1]), events[|events| - 1])
  }

  /** The records that should be in a sensor's file, and those that should wait in memory. */
  datatype Ledger = Ledger(durable: seq<Record>, waiting: seq<Record>)

  function Holding(w: Wal, id: SensorId): Ledger { Ledger(RecordsOf(FileOf(w.files, id)), PendingOf(w, id)) }

  /** One event in the book of one sensor: a flush makes what waits durable, a prune drops what
      expired, a crash loses what waits but for the whole records that had reached the file, one in
      a prune nothing but what had been dropped. */
  function Entered(a: Ledger, batch: nat, e: Event, id: SensorId): Ledger {
    var flushed := Ledger(a.durable + a.waiting, []);
    match e
    case Append(other, r) =>
      if other != id then a
      else if |a.waiting| + 1 >= batch then Ledger(a.durable + (a.waiting + [r]), [])
      else Ledger(a.durable, a.waiting + [r])
    case FlushAll => flushed
    case Read(other) => if other == id then flushed else a
    case Prune(cutoff) => Ledger(Kept(a.durable + a.waiting, cutoff), [])
    case Crash(other, last, cut) =>
      if other != id then Ledger(a.durable, [])
      else Ledger(a.durable + UpTo(a.waiting + if last.Some? then [last.value] else [], cut / RECORD), [])
    case PruneCrash(done, cutoff) => if id in done then Ledger(Kept(flushed.durable, cutoff), []) else flushed
  }

  function Book(start: Ledger, batch: nat, events: seq<Event>, id: SensorId): Ledger {
    if events == [] then start
    else Entered(Book(start, batch, events[..|events| - 1], id), batch, events[|events| - 1], id)
  }

  /** The records that should be in a sensor's log while nothing crashes: those appended to it,
      in order, without those a prune found expired. */
  function Expected(start: seq<Record>, events: seq<Event>, id: SensorId): seq<Record> {
    if events == [] then start
    else
      var before, e := Expected(start, events[..|events| - 1], id), events[|events| - 1];
      if e.Append? && e.id == id then before + [e.record]
      else if e.Prune? || (e.PruneCrash? && id in e.done) then Kept(before, e.cutoff)
      else before
  }

  /** Files hold whole records. */
  ghost predicate Whole(w: Wal) { forall id | id in w.files :: |w.files[id]| % RECORD == 0 }

  lemma FlushHolding(w: Wal, id: SensorId, other: SensorId)
    requires Whole(w)
    ensures Whole(Flushed(w, id))
    ensures Holding(Flushed(w, id), other) == if other == id then Ledger(Log(w, id), []) else Holding(w, other)
  {
    WholeFile(w, id);
    LogBytesWhole(FileOf(w.files, id), PendingOf(w, id));
    hide RecordsOf, LogBytes;
    AppendRecords(FileOf(w.files, id), PendingOf(w, id));
  }

  lemma FlushLog(w: Wal, id: SensorId)
    requires Whole(w)
    ensures Whole(Flushed(w, id)) && forall other :: Log(Flushed(w, id), other) == Log(w, other)
  {
    hide RecordsOf, Flushed, Whole, FileOf, PendingOf;
    FlushHolding(w, id, id);
    forall other ensures Log(Flushed(w, id), other) == Log(w, other) {
      FlushHolding(w, id, other);
      assert Log(w, other) + [] == Log(w, other);
    }
  }

  lemma AppendLog(w: Wal, id: SensorId, r: Record, other: SensorId)
    requires Whole(w)
    ensures Whole(Appended(w, id, r))
    ensures Log(Appended(w, id, r), other) == if other == id then Log(w, id) + [r] else Log(w, other)
  {
    hide RecordsOf, Flushed;
    var t := w.(pending := w.pending[id := PendingOf(w, id) + [r]]);
    FlushLog(t, id);
    assert Log(w, id) + [r] == RecordsOf(FileOf(w.files, id)) + (PendingOf(w, id) + [r]);
  }

  lemma AllFlushedWhole(w: Wal)
    requires Whole(w)
    ensures Whole(AllFlushed(w))
  {
    hide LogBytes;
    forall id | id in w.files.Keys + Waiting(w) ensures |AllFlushed(w).files[id]| % RECORD == 0 {
      LogBytesWhole(FileOf(w.files, id), PendingOf(w, id));
    }
  }

  lemma LogBytesWhole(file: seq<byte>, records: seq<Record>)
    requires |file| % RECORD == 0
    ensures |file + LogBytes(records)| % RECORD == 0
  {}

  lemma AllFlushedFile(w: Wal, id: SensorId)
    ensures FileOf(AllFlushed(w).files, id) == FileOf(w.files, id) + LogBytes(PendingOf(w, id))
    ensures PendingOf(AllFlushed(w), id) == []
  {
    if id !in w.files.Keys + Waiting(w) {
      assert PendingOf(w, id) == [] && FileOf(w.files, id) == [] && LogBytes([]) == [];
    }
  }

  lemma FlushAllLog(w: Wal, id: SensorId)
    requires Whole(w)
    ensures Whole(AllFlushed(w)) && Log(AllFlushed(w), id) == Log(w, id) && PendingOf(AllFlushed(w), id) == []
  {
    hide RecordsOf, LogBytes, AllFlushed, Whole, FileOf, PendingOf;
    AllFlushedWhole(w);
    AllFlushedFile(w, id);
    WholeFile(w, id);
    AppendRecords(FileOf(w.files, id), PendingOf(w, id));
    assert Log(w, id) + [] == Log(w, id);
  }

  lemma WholeFile(w: Wal, id: SensorId)
    requires Whole(w)
    ensures |FileOf(w.files, id)| % RECORD == 0
  {}

  lemma {:induction false} KeptSize(records: seq<Record>, cutoff: int)
    ensures |Kept(records, cutoff)| <= |records|
    ensures |Kept(records, cutoff)| == |records| ==> Kept(records, cutoff) == records
  {
    if records != [] { KeptSize(records[..|records| - 1], cutoff); }
  }

  lemma PruneFileRecords(file: seq<byte>, cutoff: int)
    requires |file| % RECORD == 0
    ensures RecordsOf(PrunedFile(file, cutoff)) == Kept(RecordsOf(file), cutoff)
    ensures |PrunedFile(file, cutoff)| % RECORD == 0
  {
    var kept := Kept(RecordsOf(file), cutoff);
    KeptSize(RecordsOf(file), cutoff);
    LogRoundTrip(kept, []);
    assert LogBytes(kept) + [] == LogBytes(kept);
  }

  lemma PruneLog(w: Wal, cutoff: int, id: SensorId)
    requires Whole(w)
    ensures Whole(Pruned(w, cutoff)) && Log(Pruned(w, cutoff), id) == Kept(Log(w, id), cutoff)
  {
    FlushAllLog(w, id);
    var t := AllFlushed(w);
    forall other | other in t.files ensures |PrunedFile(t.files[other], cutoff)| % RECORD == 0 {
      PruneFileRecords(t.files[other], cutoff);
    }
    PruneFileRecords(FileOf(t.files, id), cutoff);
    hide PrunedFile, AllFlushed;
    assert Log(t, id) == RecordsOf(FileOf(t.files, id));
    if id !in t.files {
      assert Log(Pruned(w, cutoff), id) == [] == Kept([], cutoff);
    }
  }

  lemma ReadLog(w: Wal, id: SensorId, other: SensorId)
    requires Whole(w)
    ensures Whole(ReadyToRead(w, id)) && Log(ReadyToRead(w, id), other) == Log(w, other)
    ensures RecordsOf(FileOf(ReadyToRead(w, id).files, id)) == Log(w, id)
  {
    FlushLog(w, id);
    hide RecordsOf, LogBytes;
    assert Log(w, id) == RecordsOf(FileOf(w.files, id)) + PendingOf(w, id);
    assert Log(Flushed(w, id), id) == Log(w, id);
  }

  lemma LogBytesUpTo(records: seq<Record>, n: nat)
    ensures UpTo(LogBytes(records), RECORD * n) == LogBytes(UpTo(records, n))
  {
    hide LogBytes;
    if n <= |records| {
      LogBytesConcat(records[..n], records[n..]);
      Sequences.SplitAt(records, n);
      Sequences.FrontOf(LogBytes(records[..n]), LogBytes(records[n..]));
    }
  }

  lemma LogBytesCons(records: seq<Record>)
    requires records != []
    ensures LogBytes(records) == RecordBytes(records[0]) + LogBytes(records[1..])
  {}

  lemma {:induction false} LogBytesConcat(a: seq<Record>, b: seq<Record>)
    ensures LogBytes(a + b) == LogBytes(a) + LogBytes(b)
  {
    if a == [] {
      assert a + b == b && LogBytes(a) == [];
    } else {
      hide RecordBytes, LogBytes;
      TailOfConcat(a, b);
      LogBytesConcat(a[1..], b);
      LogBytesCons(a);
      LogBytesCons(a + b);
      Regroup(RecordBytes(a[0]), LogBytes(a[1..]), LogBytes(b));
    }
  }

  lemma CrashedFiles(w: Wal, id: SensorId, last: Option<Record>, cut: nat, other: SensorId)
    ensures var t := Crashed(w, id, last, cut);
            && t.pending == map[] && t.batch == w.batch && t.files.Keys == w.files.Keys + {id}
            && FileOf(t.files, other) == if other == id then FileOf(w.files, id) + UpTo(LogBytes(Unsaved(w, id, last)), cut)
                                         else FileOf(w.files, other)
  {
    hide LogBytes, Unsaved, UpTo;
  }

  /** A crash leaves files of whole records exactly when it fell between two of them. */
  lemma CrashWholeExactly(w: Wal, id: SensorId, last: Option<Record>, cut: nat)
    requires Whole(w) && cut <= RECORD * |Unsaved(w, id, last)|
    ensures Whole(Crashed(w, id, last, cut)) <==> cut % RECORD == 0
    ensures |FileOf(Crashed(w, id, last, cut).files, id)| % RECORD == cut % RECORD
  {
    hide LogBytes, Unsaved, Crashed;
    WholeFile(w, id);
    var t := Crashed(w, id, last, cut);
    CrashedFiles(w, id, last, cut, id);
    LengthsAdd(FileOf(w.files, id), UpTo(LogBytes(Unsaved(w, id, last)), cut));
    assert id in t.files;
    if cut % RECORD == 0 {
      CrashKeepsWhole(w, id, last, cut);
    }
  }

  lemma LengthsAdd(a: seq<byte>, b: seq<byte>)
    requires |a| % RECORD == 0
    ensures |a + b| % RECORD == |b| % RECORD
  {}

  predicate CleanCrash(e: Event) { e.Crash? ==> e.cut % RECORD == 0 }

  lemma CrashHolding(w: Wal, e: Event, id: SensorId)
    requires Whole(w) && e.Crash? && CleanCrash(e)
    ensures Whole(Next(w, e)) && Holding(Next(w, e), id) == Entered(Holding(w, id), w.batch, e, id)
  {
    hide LogBytes, RecordsOf, Crashed, Whole, FileOf;
    CrashKeepsWhole(w, e.id, e.last, e.cut);
    CrashedFiles(w, e.id, e.last, e.cut, id);
    if id == e.id {
      var unsaved := Unsaved(w, e.id, e.last);
      LogBytesUpTo(unsaved, e.cut / RECORD);
      WholeFile(w, e.id);
      AppendRecords(FileOf(w.files, e.id), UpTo(unsaved, e.cut / RECORD));
    }
  }

  lemma CrashKeepsWhole(w: Wal, id: SensorId, last: Option<Record>, cut: nat)
    requires Whole(w) && cut % RECORD == 0
    ensures Whole(Crashed(w, id, last, cut))
  {
    hide LogBytes, Unsaved, Crashed;
    var t, bytes := Crashed(w, id, last, cut), LogBytes(Unsaved(w, id, last));
    WholeFile(w, id);
    assert |UpTo(bytes, cut)| % RECORD == 0;
    LengthsAdd(FileOf(w.files, id), UpTo(bytes, cut));
    CrashedFiles(w, id, last, cut, id);
    forall other | other in t.files ensures |t.files[other]| % RECORD == 0 {
      CrashedFiles(w, id, last, cut, other);
      if other != id { WholeFile(w, other); }
    }
  }

  lemma AppendHolding(w: Wal, e: Event, id: SensorId)
    requires Whole(w) && e.Append?
    ensures Whole(Next(w, e)) && Holding(Next(w, e), id) == Entered(Holding(w, id), w.batch, e, id)
  {
    var t := w.(pending := w.pending[e.id := PendingOf(w, e.id) + [e.record]]);
    FlushHolding(t, e.id, id);
    hide RecordsOf, Flushed;
  }

  lemma ReadHolding(w: Wal, e: Event, id: SensorId)
    requires Whole(w) && e.Read?
    ensures Whole(Next(w, e)) && Holding(Next(w, e), id) == Entered(Holding(w, id), w.batch, e, id)
  {
    FlushHolding(w, e.id, id);
    hide RecordsOf, Flushed;
    assert RecordsOf(FileOf(w.files, id)) + [] == RecordsOf(FileOf(w.files, id));
  }

  lemma FlushAllHolding(w: Wal, id: SensorId)
    requires Whole(w)
    ensures Whole(AllFlushed(w)) && Holding(AllFlushed(w), id) == Ledger(Log(w, id), [])
  {
    hide RecordsOf, AllFlushed;
    FlushAllLog(w, id);
    assert RecordsOf(FileOf(AllFlushed(w).files, id)) + [] == RecordsOf(FileOf(AllFlushed(w).files, id));
  }

  lemma PruneHolding(w: Wal, cutoff: int, id: SensorId)
    requires Whole(w)
    ensures Whole(Pruned(w, cutoff)) && Holding(Pruned(w, cutoff), id) == Ledger(Kept(Log(w, id), cutoff), [])
  {
    AllFlushedFile(w, id);
    assert PendingOf(Pruned(w, cutoff), id) == [] by { hide PrunedFile, AllFlushed; }
    hide RecordsOf, Pruned, Kept;
    PruneLog(w, cutoff, id);
    var t := Pruned(w, cutoff);
    assert RecordsOf(FileOf(t.files, id)) + [] == RecordsOf(FileOf(t.files, id));
  }

  lemma PruneCrashHolding(w: Wal, done: set<SensorId>, cutoff: int, id: SensorId)
    requires Whole(w)
    ensures var t := PartlyPruned(w, done, cutoff);
            Whole(t) && Holding(t, id) == Ledger(if id in done then Kept(Log(w, id), cutoff) else Log(w, id), [])
  {
    hide RecordsOf, Kept, PrunedFile, AllFlushed, Whole, Log;
    FlushAllHolding(w, id);
    var u, t := AllFlushed(w), PartlyPruned(w, done, cutoff);
    PrunedSomeWhole(u, done, cutoff, t);
    PrunedSomeFile(u, done, cutoff, id);
  }

  lemma PrunedSomeWhole(u: Wal, done: set<SensorId>, cutoff: int, t: Wal)
    requires Whole(u) && t.files == PrunedSome(u.files, done, cutoff)
    ensures Whole(t)
  {
    hide PrunedFile;
    forall id | id in t.files ensures |t.files[id]| % RECORD == 0 {
      PruneFileRecords(u.files[id], cutoff);
    }
  }

  lemma PrunedSomeFile(u: Wal, done: set<SensorId>, cutoff: int, id: SensorId)
    requires Whole(u)
    ensures var records := RecordsOf(FileOf(u.files, id));
            RecordsOf(FileOf(PrunedSome(u.files, done, cutoff), id)) == if id in done then Kept(records, cutoff) else records
  {
    WholeFile(u, id);
    PruneFileRecords(FileOf(u.files, id), cutoff);
    hide PrunedFile;
    if id !in u.files {
      assert RecordsOf([]) == [] && Kept([], cutoff) == [];
    }
  }

  lemma StepHolding(w: Wal, e: Event, id: SensorId)
    requires Whole(w) && CleanCrash(e)
    ensures Whole(Next(w, e)) && Holding(Next(w, e), id) == Entered(Holding(w, id), w.batch, e, id)
    ensures Next(w, e).batch == w.batch
  {
    BatchKept(w, e);
    hide Next, Whole, RecordsOf, Kept;
    match e
    case Append(_, _) => AppendHolding(w, e, id);
    case Read(_) => ReadHolding(w, e, id);
    case Crash(_, _, _) => CrashHolding(w, e, id);
    case FlushAll => FlushAllHolding(w, id); NextIs(w, e);
    case Prune(cutoff) => PruneHolding(w, cutoff, id); NextIs(w, e);
    case PruneCrash(done, cutoff) => PruneCrashHolding(w, done, cutoff, id); NextIs(w, e);
  }

  lemma NextIs(w: Wal, e: Event)
    ensures e.FlushAll? ==> Next(w, e) == AllFlushed(w)
    ensures e.Prune? ==> Next(w, e) == Pruned(w, e.cutoff)
    ensures e.PruneCrash? ==> Next(w, e) == PartlyPruned(w, e.done, e.cutoff)
  {}

  lemma BatchKept(w: Wal, e: Event)
    ensures Next(w, e).batch == w.batch
  {
    hide LogBytes, PrunedFile;
  }

  /** Across any sequence of appends, flushes, reads, prunes, crashes between two records of a
      flush and crashes in the middle of a prune, a sensor's file and its waiting records are
      exactly what its book says. */
  lemma {:induction false} LogIsHistory(w: Wal, events: seq<Event>, id: SensorId)
    requires Whole(w) && forall e <- events :: CleanCrash(e)
    ensures Whole(After(w, events)) && After(w, events).batch == w.batch
    ensures Holding(After(w, events), id) == Book(Holding(w, id), w.batch, events, id)
  {
    hide Holding, Next, Whole, Entered, CleanCrash;
    if events != [] {
      var init, e := events[..|events| - 1], events[|events| - 1];
      assert e in events && forall d <- init :: d in events;
      LogIsHistory(w, init, id);
      StepHolding(After(w, init), e, id);
    }
  }

  /** Without a crash in a flush, file and waiting records together are exactly the appended
      records minus those that a prune, finished or not, removed as expired, in order. */
  lemma {:induction false} NothingLostWithoutCrash(w: Wal, events: seq<Event>, id: SensorId)
    requires Whole(w) && forall e <- events :: !e.Crash?
    ensures Log(After(w, events), id) == Expected(Log(w, id), events, id)
  {
    LogIsHistory(w, events, id);
    BookWithoutCrash(Holding(w, id), w.batch, events, id);
    hide Book, Expected, RecordsOf, After, Whole;
  }

  lemma {:induction false} BookWithoutCrash(start: Ledger, batch: nat, events: seq<Event>, id: SensorId)
    requires forall e <- events :: !e.Crash?
    ensures var a := Book(start, batch, events, id);
            a.durable + a.waiting == Expected(start.durable + start.waiting, events, id)
  {
    hide Kept;
    if events != [] {
      var init, e := events[..|events| - 1], events[|events| - 1];
      assert e in events && forall d <- init :: d in events;
      BookWithoutCrash(start, batch, init, id);
      EntryKeepsLog(Book(start, batch, init, id), batch, e, id);
    }
  }

  lemma EntryKeepsLog(a: Ledger, batch: nat, e: Event, id: SensorId)
    requires !e.Crash?
    ensures var b, log := Entered(a, batch, e, id), a.durable + a.waiting;
            b.durable + b.waiting == if e.Append? && e.id == id then log + [e.record]
                                     else if e.Prune? || (e.PruneCrash? && id in e.done) then Kept(log, e.cutoff)
                                     else log
  {
    hide Kept;
  }

  /** Fewer than a batch of records ever wait in memory, so a crash loses fewer than that. */
  ghost predicate FewPending(w: Wal) { forall id | id in w.pending :: |w.pending[id]| < w.batch }

  lemma {:induction false} PendingBounded(w: Wal, events: seq<Event>)
    requires FewPending(w) && w.batch > 0
    ensures FewPending(After(w, events)) && After(w, events).batch == w.batch
  {
    hide FewPending, Next;
    if events != [] {
      PendingBounded(w, events[..|events| - 1]);
      StepFewPending(After(w, events[..|events| - 1]), events[|events| - 1]);
    }
  }

  lemma StepFewPending(w: Wal, e: Event)
    requires FewPending(w) && w.batch > 0
    ensures FewPending(Next(w, e)) && Next(w, e).batch == w.batch
  {
    hide LogBytes, PrunedFile, FileOf;
  }

  /** What is not kept has expired. */
  lemma {:induction false} CountExpired(records: seq<Record>, cutoff: int)
    ensures |ExpiredIn(records, cutoff)| == |records| - |Kept(records, cutoff)|
  {
    if records == [] {
      assert ExpiredIn(records, cutoff) == {};
    } else {
      var n := |records| - 1;
      CountExpired(records[..n], cutoff);
      var before := ExpiredIn(records[..n], cutoff);
      assert ExpiredIn(records, cutoff) == if records[n].ms < cutoff then before + {n} else before;
    }
  }

  function Tagged(id: SensorId, ks: set<nat>): set<(SensorId, nat)> { set k | k in ks :: (id, k) }

  lemma {:induction false} TaggedSize(id: SensorId, ks: set<nat>)
    ensures |Tagged(id, ks)| == |ks|
  {
    if ks == {} {
      assert Tagged(id, ks) == {};
    } else {
      var one :| one in ks;
      TaggedSize(id, ks - {one});
      assert Tagged(id, ks) == Tagged(id, ks - {one}) + {(id, one)};
    }
  }

  lemma NoneExpired(files: map<SensorId, seq<byte>>, cutoff: int)
    ensures Expired(files, {}, cutoff) == {}
  {}

  lemma ExpiredOne(files: map<SensorId, seq<byte>>, done: set<SensorId>, id: SensorId, cutoff: int)
    requires id in files && id !in done
    ensures |Expired(files, done + {id}, cutoff)|
         == |Expired(files, done, cutoff)| + (|RecordsOf(files[id])| - |Kept(RecordsOf(files[id]), cutoff)|)
  {
    hide RecordsOf, Kept;
    var ks := ExpiredIn(RecordsOf(files[id]), cutoff);
    CountExpired(RecordsOf(files[id]), cutoff);
    TaggedSize(id, ks);
    hide ExpiredIn;
    var before, own := Expired(files, done, cutoff), Tagged(id, ks);
    assert Expired(files, done + {id}, cutoff) == before + own;
    assert before !! own;
  }

  /** Kept keeps the records at or after the cutoff, each as often as it occurred. */
  lemma {:induction false} KeptMeans(records: seq<Record>, cutoff: int)
    ensures forall r :: multiset(Kept(records, cutoff))[r] == if r.ms >= cutoff then multiset(records)[r] else 0
    ensures forall r <- Kept(records, cutoff) :: r.ms >= cutoff
  {
    if records != [] {
      KeptMeans(records[..|records| - 1], cutoff);
      assert records == records[..|records| - 1] + [records[|records| - 1]];
    }
  }

  /** And in their order: what it keeps of two stretches is what it keeps of each, in turn. */
  lemma {:induction false} KeptConcat(a: seq<Record>, b: seq<Record>, cutoff: int)
    ensures Kept(a + b, cutoff) == Kept(a, cutoff) + Kept(b, cutoff)
  {
    if b == [] {
      assert a + [] == a;
    } else {
      var init := b[..|b| - 1];
      KeptConcat(a, init, cutoff);
      assert (a + b)[..|a + b| - 1] == a + init && (a + b)[|a + b| - 1] == b[|b| - 1];
    }
  }
}
