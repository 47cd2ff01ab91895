/** The registry of in-memory buffers over the log, as values: why what it caches agrees with
    what the log holds, over whole runs and across restarts. */
module SeriesRuns {
  import opened Octets
  import opened Optional
  import opened RecentBuffer
  import opened WalLog
  import opened WalWriting

  /** Buffers by sensor, the log if there is one, and the settings. */
  datatype Store = Store(series: map<SensorId, seq<Sample>>, wal: Option<Wal>, capacity: nat, maxAge: Option<nat>)

  predicate TooOld(r: WalLog.Record, maxAge: Option<nat>, now: int) {
    maxAge.Some? && now - r.ms * TICKS_PER_MS > maxAge.value * TICKS_PER_MS
  }

  /** Records a replay at time `now` does not skip as too old. */
  function Recent(records: seq<WalLog.Record>, maxAge: Option<nat>, now: int): seq<WalLog.Record> {
    if records == [] then []
    else
      var last := records[|records| - 1];
      Recent(records[..|records| - 1], maxAge, now) + if TooOld(last, maxAge, now) then [] else [last]
  }

  lemma RecentPush(records: seq<WalLog.Record>, k: nat, maxAge: Option<nat>, now: int)
    requires k < |records|
    ensures var before := Recent(records[..k], maxAge, now);
            Recent(records[..k + 1], maxAge, now)
            == if TooOld(records[k], maxAge, now) then before else before + [records[k]]
  {
    assert records[..k + 1][..k] == records[..k];
    assert Recent(records[..k], maxAge, now) + [] == Recent(records[..k], maxAge, now);
  }

  lemma SamplesPush(records: seq<Record>, r: Record)
    ensures Samples(records + [r]) == Samples(records) + [SampleOf(r)]
  {}

  /** A replay keeps the records no older than the age limit, each as often as it occurs. */
  lemma {:induction false} RecentMeans(records: seq<WalLog.Record>, maxAge: Option<nat>, now: int)
    ensures forall r :: multiset(Recent(records, maxAge, now))[r]
                     == if maxAge.None? || now - r.ms * 1_000_000 <= maxAge.value * 1_000_000
                        then multiset(records)[r] else 0
  {
    if records != [] {
      var init, last := records[..|records| - 1], records[|records| - 1];
      RecentMeans(init, maxAge, now);
      assert records == init + [last];
    }
  }

  /** And keeps them in order. */
  lemma {:induction false} RecentConcat(a: seq<WalLog.Record>, b: seq<WalLog.Record>, maxAge: Option<nat>, now: int)
    ensures Recent(a + b, maxAge, now) == Recent(a, maxAge, now) + Recent(b, maxAge, now)
  {
    hide TooOld;
    if b == [] {
      assert a + b == a;
    } else {
      var init := b[..|b| - 1];
      RecentConcat(a, init, maxAge, now);
      assert (a + b)[..|a + b| - 1] == a + init && (a + b)[|a + b| - 1] == b[|b| - 1];
    }
  }

  function Replayed(s: Store, id: SensorId, now: int): seq<Sample> {
    if s.wal.None? then []
    else Last(Samples(Recent(RecordsOf(FileOf(s.wal.value.files, id)), s.maxAge, now)), s.capacity)
  }

  function Touched(s: Store, id: SensorId, now: int): Store {
    if id in s.series then s else s.(series := s.series[id := Replayed(s, id, now)])
  }

  function Recorded(s: Store, id: SensorId, value: u64, timestamp: i64, now: int): Store {
    var t := Touched(s, id, now);
    t.(series := t.series[id := Last(t.series[id] + [Sample(timestamp, value)], s.capacity)],
       wal := if s.wal.None? then None else Some(Appended(s.wal.value, id, Record(Millis(timestamp), value))))
  }

  function WithWal(s: Store, w: Wal): Store { s.(wal := Some(w)) }

  // ---------------------------------------------------------------------
  // Runs
  // ---------------------------------------------------------------------

  /** A restart loses the buffers and what was not flushed. It may be a crash in the middle of
      flushing one sensor, of which `cut` bytes have reached the file (none for a clean one), or
      one in the middle of a prune. */
  datatype Event =
    | Put(id: SensorId, value: u64, timestamp: i64, now: int)
    | Flush
    | History(id: SensorId)
    | Restart(id: SensorId, last: Option<WalLog.Record>, cut: nat)
    | Expire(cutoff: int)
    | ExpireCrash(done: set<SensorId>, cutoff: int)

  function Next(s: Store, e: Event): Store
    requires s.wal.Some?
    ensures Next(s, e).wal.Some?
  {
    match e
    case Put(id, value, timestamp, now) => Recorded(s, id, value, timestamp, now)
    case Flush => WithWal(s, AllFlushed(s.wal.value))
    case History(id) => WithWal(s, ReadyToRead(s.wal.value, id))
    case Restart(id, last, cut) => s.(series := map[], wal := Some(Crashed(s.wal.value, id, last, cut)))
    case Expire(cutoff) => WithWal(s, Pruned(s.wal.value, cutoff))
    case ExpireCrash(done, cutoff) => s.(series := map[], wal := Some(PartlyPruned(s.wal.value, done, cutoff)))
  }

  function After(s: Store, events: seq<Event>): (t: Store)
    requires s.wal.Some?
    ensures t.wal.Some?
  {
    if events == [] then s else Next(After(s, events[..|events| - 1]), events[|events| - 1])
  }

  // ---------------------------------------------------------------------
  // Agreement
  // ---------------------------------------------------------------------

  /** The samples are the records, but for the part of a millisecond the log does not keep. */
  ghost predicate Matches(samples: seq<Sample>, records: seq<Record>) {
    && |samples| == |records|
    && forall k | 0 <= k < |samples| ::
         Truncated(samples[k].timestamp) == records[k].ms && samples[k].value == records[k].value
  }

  ghost predicate Agrees(s: Store, id: SensorId)
    requires s.wal.Some?
  {
    if id in s.series then Matches(s.series[id], Last(Log(s.wal.value, id), s.capacity))
    else PendingOf(s.wal.value, id) == []
  }

  ghost predicate Ready(s: Store) { s.wal.Some? && s.capacity > 0 && Whole(s.wal.value) }

  ghost predicate AllAgree(s: Store)
    requires s.wal.Some?
  {
    forall id :: Agrees(s, id)
  }

  ghost predicate Inv(s: Store) { Ready(s) && s.maxAge.None? && AllAgree(s) }

  /** No crash tore a record. */
  predicate Untorn(e: Event) { e.Restart? ==> e.cut % RECORD == 0 }

  lemma MatchesSamples(records: seq<Record>)
    ensures Matches(Samples(records), records)
  {
    forall k | 0 <= k < |records| ensures Truncated(Samples(records)[k].timestamp) == records[k].ms {
      WholeMillis(records[k].ms);
    }
  }

  lemma WholeMillis(ms: int)
    ensures Truncated(ms * TICKS_PER_MS) == ms
  {}

  lemma MatchesLast(samples: seq<Sample>, records: seq<Record>, n: nat)
    requires Matches(samples, records)
    ensures Matches(Last(samples, n), Last(records, n))
  {}

  lemma MatchesPush(samples: seq<Sample>, records: seq<Record>, x: Sample, r: Record, n: nat)
    requires n > 0 && Matches(samples, Last(records, n))
    requires Truncated(x.timestamp) == r.ms && x.value == r.value
    ensures Matches(Last(samples + [x], n), Last(records + [r], n))
  {
    hide Truncated;
    assert Matches(samples + [x], Last(records, n) + [r]);
    MatchesLast(samples + [x], Last(records, n) + [r], n);
    LastPush(records, r, n);
  }

  lemma {:induction false} RecentIsAll(records: seq<Record>, now: int)
    ensures Recent(records, None, now) == records
  {
    if records != [] { RecentIsAll(records[..|records| - 1], now); }
  }

  lemma TouchAgrees(s: Store, id: SensorId, now: int)
    requires Ready(s) && s.maxAge.None? && Agrees(s, id)
    ensures Agrees(Touched(s, id, now), id) && id in Touched(s, id, now).series
  {
    if id !in s.series {
      var records := RecordsOf(FileOf(s.wal.value.files, id));
      RecentIsAll(records, now);
      assert Log(s.wal.value, id) == records + [] == records;
      MatchesSamples(records);
      MatchesLast(Samples(records), records, s.capacity);
      hide Matches, RecordsOf, Last, Samples, Log;
    }
  }

  lemma PendingElsewhere(w: Wal, id: SensorId, r: Record, other: SensorId)
    requires other != id
    ensures PendingOf(Appended(w, id, r), other) == PendingOf(w, other)
  {}

  lemma PutAgrees(s: Store, id: SensorId, value: u64, timestamp: i64, now: int, other: SensorId)
    requires Ready(s) && s.maxAge.None? && Agrees(s, id) && Agrees(s, other)
    ensures Agrees(Recorded(s, id, value, timestamp, now), other)
  {
    hide Matches, Appended, Log, Last, Whole;
    var w, r := s.wal.value, Record(Millis(timestamp), value);
    AppendLog(w, id, r, other);
    if other == id {
      var t := Touched(s, id, now);
      TouchAgrees(s, id, now);
      MatchesPush(t.series[id], Log(w, id), Sample(timestamp, value), r, s.capacity);
    } else {
      PendingElsewhere(w, id, r, other);
    }
  }

  lemma LogOfFile(w: Wal, id: SensorId)
    ensures PendingOf(w, id) == [] ==> Log(w, id) == RecordsOf(FileOf(w.files, id))
  {
    hide RecordsOf;
    assert RecordsOf(FileOf(w.files, id)) + [] == RecordsOf(FileOf(w.files, id));
  }

  lemma StepReady(s: Store, e: Event)
    requires Ready(s) && Untorn(e)
    ensures Ready(Next(s, e)) && Next(s, e).maxAge == s.maxAge
  {
    hide Appended, AllFlushed, ReadyToRead, Crashed, Pruned, PartlyPruned, Whole, Holding;
    var w := s.wal.value;
    match e
    case Put(id, value, timestamp, now) => AppendLog(w, id, Record(Millis(timestamp), value), id);
    case Flush => AllFlushedWhole(w);
    case History(id) => ReadLog(w, id, id);
    case Restart(id, last, cut) => CrashKeepsWhole(w, id, last, cut);
    case Expire(cutoff) => PruneLog(w, cutoff, SensorId(""));
    case ExpireCrash(done, cutoff) => PruneCrashHolding(w, done, cutoff, SensorId(""));
  }

  lemma ReadPending(w: Wal, id: SensorId, other: SensorId)
    ensures PendingOf(w, other) == [] ==> PendingOf(ReadyToRead(w, id), other) == []
  {}

  lemma StepAgrees(s: Store, e: Event, id: SensorId)
    requires Inv(s) && !e.Expire? && Untorn(e)
    ensures Agrees(Next(s, e), id)
  {
    var w := s.wal.value;
    assert Agrees(s, id);
    match e
    case Put(other, value, timestamp, now) =>
      assert Agrees(s, other);
      PutAgrees(s, other, value, timestamp, now, id);
      hide Recorded;
    case Flush => FlushAllLog(w, id);
      hide AllFlushed, Log, Matches;
    case History(other) =>
      ReadLog(w, other, id);
      ReadPending(w, other, id);
      hide ReadyToRead, Log, Matches;
    case Restart(_, _, _) =>
    case ExpireCrash(_, _) =>
      hide PrunedSome, AllFlushed;
  }

  /** With no age limit, until something is pruned: the buffer of every sensor touched since
      the last restart holds the last `capacity` records of its log. Restarts may be crashes in
      the middle of a prune, or of a flush as long as none tore a record. */
  lemma {:induction false} CacheAgreesWithLog(s: Store, events: seq<Event>)
    requires Inv(s) && forall e <- events :: !e.Expire? && Untorn(e)
    ensures Inv(After(s, events))
  {
    if events != [] {
      var init, e := events[..|events| - 1], events[|events| - 1];
      assert e in events && forall d <- init :: d in events;
      CacheAgreesWithLog(s, init);
      var t := After(s, init);
      hide Inv, Agrees, Next;
      AgreesStep(t, e);
    }
  }

  lemma AgreesStep(s: Store, e: Event)
    requires Inv(s) && !e.Expire? && Untorn(e)
    ensures Inv(Next(s, e))
  {
    hide Agrees, Next;
    StepReady(s, e);
    forall id ensures Agrees(Next(s, e), id) { StepAgrees(s, e, id); }
  }

  /** A store opened on the files of an earlier run agrees from the start. */
  lemma OpenAgrees(files: map<SensorId, seq<byte>>, batch: nat, capacity: nat)
    requires capacity > 0 && forall id | id in files :: |files[id]| % RECORD == 0
    ensures Inv(Store(map[], Some(Wal(files, map[], batch)), capacity, None))
  {}

  /** Whatever runs follow, until something is pruned, buffers and log keep agreeing. */
  ghost predicate KeepsAgreeing(s: Store)
    requires s.wal.Some?
  {
    forall events: seq<Event> | (forall e <- events :: !e.Expire? && Untorn(e)) :: AllAgree(After(s, events))
  }

  /** After a crash in the middle of a flush buffers and log keep agreeing exactly when the
      crash fell between two records: behind a torn one the next flush is read out of step. */
  lemma AgreesAfterCrashExactly(s: Store, id: SensorId, last: Option<WalLog.Record>, cut: nat)
    requires Inv(s) && cut <= RECORD * |Unsaved(s.wal.value, id, last)|
    ensures KeepsAgreeing(Next(s, Restart(id, last, cut))) <==> cut % RECORD == 0
  {
    hide AllAgree, After, Next;
    var t := Next(s, Restart(id, last, cut));
    if cut % RECORD == 0 {
      AgreesStep(s, Restart(id, last, cut));
      forall events: seq<Event> | (forall e <- events :: !e.Expire? && Untorn(e)) ensures AllAgree(After(t, events)) {
        CacheAgreesWithLog(t, events);
      }
    } else {
      var events := TornDisagrees(s, id, last, cut);
    }
  }

  /** One more record and a flush, and the newest sample of the buffer is not in the log. */
  lemma TornDisagrees(s: Store, id: SensorId, last: Option<WalLog.Record>, cut: nat) returns (events: seq<Event>)
    requires Inv(s) && cut <= RECORD * |Unsaved(s.wal.value, id, last)| && cut % RECORD != 0
    ensures forall e <- events :: !e.Expire? && Untorn(e)
    ensures !AllAgree(After(Next(s, Restart(id, last, cut)), events))
  {
    hide Matches, Crashed, Last, RecordsOf, LogBytes, AllFlushed, Appended, After, Whole, TornByte, Replayed;
    var w, t := Crashed(s.wal.value, id, last, cut), Next(s, Restart(id, last, cut));
    CrashWholeExactly(s.wal.value, id, last, cut);
    CrashedFiles(s.wal.value, id, last, cut, id);
    var file := FileOf(w.files, id);
    var timestamp: i64 := if TornByte(file) == 0 then TICKS_PER_MS else 0;
    events := [Put(id, 0, timestamp, 0), Flush];
    TwoEvents(t, events[0], events[1]);
    PutBehindTorn(t, id, timestamp);
  }

  /** A record put behind a torn one, and flushed, is in the buffer but not in the log. */
  lemma PutBehindTorn(t: Store, id: SensorId, timestamp: i64)
    requires t.wal.Some? && t.wal.value.pending == map[] && t.series == map[] && t.capacity > 0
    requires |FileOf(t.wal.value.files, id)| % RECORD != 0
    requires Millis(timestamp) % 256 != TornByte(FileOf(t.wal.value.files, id))
    ensures !AllAgree(Next(Next(t, Put(id, 0, timestamp, 0)), Flush))
  {
    hide Matches, Last, RecordsOf, LogBytes, AllFlushed, Appended, TornByte;
    var w, file, r := t.wal.value, FileOf(t.wal.value.files, id), Record(Millis(timestamp), 0);
    var b := Next(Next(t, Put(id, 0, timestamp, 0)), Flush);
    var misread := TornAppend(file, r);
    FlushedRecord(w, id, r);
    BufferAfterPut(t, id, timestamp);
    assert b.wal.value == AllFlushed(Appended(w, id, r));
    LogOfFile(b.wal.value, id);
    NewestDiffers(b.series[id], RecordsOf(file), Sample(timestamp, 0), r, misread, t.capacity);
    assert !Agrees(b, id);
  }

  lemma AfterPush(s: Store, events: seq<Event>, e: Event)
    requires s.wal.Some?
    ensures After(s, events + [e]) == Next(After(s, events), e)
  {
    hide Next;
    assert (events + [e])[..|events|] == events;
  }

  lemma AfterNone(s: Store)
    requires s.wal.Some?
    ensures After(s, []) == s
  {}

  lemma TwoEvents(s: Store, d: Event, e: Event)
    requires s.wal.Some?
    ensures After(s, [d, e]) == Next(Next(s, d), e)
  {
    hide Next, After;
    AfterNone(s);
    AfterPush(s, [], d);
    AfterPush(s, [d], e);
    assert [] + [d] == [d] && [d] + [e] == [d, e];
  }

  lemma FlushedRecord(w: Wal, id: SensorId, r: WalLog.Record)
    requires w.pending == map[]
    ensures var t := AllFlushed(Appended(w, id, r));
            FileOf(t.files, id) == FileOf(w.files, id) + LogBytes([r]) && PendingOf(t, id) == []
  {
    var t := Appended(w, id, r);
    assert PendingOf(w, id) + [r] == [r];
    AllFlushedFile(t, id);
    assert FileOf(w.files, id) + LogBytes([r]) + [] == FileOf(w.files, id) + LogBytes([r]) && LogBytes([]) == [];
    hide LogBytes, AllFlushed;
  }

  lemma BufferAfterPut(s: Store, id: SensorId, timestamp: i64)
    requires s.wal.Some? && s.series == map[]
    ensures var b := Next(Next(s, Put(id, 0, timestamp, 0)), Flush);
            && b.capacity == s.capacity && id in b.series
            && exists before :: b.series[id] == Last(before + [Sample(timestamp, 0)], s.capacity)
  {
    hide Last, AllFlushed, Appended, Replayed;
    var before := Replayed(s, id, 0);
    assert Next(Next(s, Put(id, 0, timestamp, 0)), Flush).series[id] == Last(before + [Sample(timestamp, 0)], s.capacity);
  }

  lemma NewestDiffers(buffer: seq<Sample>, records: seq<WalLog.Record>, x: Sample, r: WalLog.Record,
                      misread: WalLog.Record, n: nat)
    requires n > 0 && Truncated(x.timestamp) == r.ms != misread.ms
    requires exists before :: buffer == Last(before + [x], n)
    ensures !Matches(buffer, Last(records + [misread], n))
  {
    hide Truncated;
    var before :| buffer == Last(before + [x], n);
    var log := Last(records + [misread], n);
    assert buffer[|buffer| - 1] == x && log[|log| - 1] == misread;
  }

  /** A restart drops what was not flushed, and nothing else. */
  lemma RestartKeepsFlushed(s: Store, id: SensorId, other: SensorId)
    requires Inv(s)
    ensures Log(Next(Next(s, Flush), Restart(other, None, 0)).wal.value, id) == Log(s.wal.value, id)
  {
    var w := s.wal.value;
    hide AllFlushed, RecordsOf, Crashed, LogBytes;
    FlushAllLog(w, id);
    var t := AllFlushed(w);
    CrashedFiles(t, other, None, 0, id);
    NoBytesReached(FileOf(t.files, other), LogBytes(Unsaved(t, other, None)));
    LogOfFile(t, id);
    LogOfFile(Crashed(t, other, None, 0), id);
  }

  lemma NoBytesReached(file: seq<byte>, bytes: seq<byte>)
    ensures file + UpTo(bytes, 0) == file
  {}

  // ---------------------------------------------------------------------
  // Without a log
  // ---------------------------------------------------------------------

  function AfterPuts(s: Store, puts: seq<Event>): Store
    requires forall e <- puts :: e.Put?
  {
    if puts == [] then s
    else
      var e := puts[|puts| - 1];
      Recorded(AfterPuts(s, puts[..|puts| - 1]), e.id, e.value, e.timestamp, e.now)
  }

  /** What was recorded for one sensor, in order. */
  function Given(puts: seq<Event>, id: SensorId): seq<Sample>
    requires forall e <- puts :: e.Put?
  {
    if puts == [] then []
    else
      var e := puts[|puts| - 1];
      Given(puts[..|puts| - 1], id) + if e.id == id then [Sample(e.timestamp, e.value)] else []
  }

  /** A store without a log holds, for every sensor recorded, its last `capacity` samples. */
  lemma {:induction false} MemoryOnly(s: Store, puts: seq<Event>, id: SensorId)
    requires s.series == map[] && s.wal.None? && s.capacity > 0 && forall e <- puts :: e.Put?
    ensures var t := AfterPuts(s, puts);
            && t.wal.None? && t.capacity == s.capacity
            && (id in t.series <==> Given(puts, id) != [])
            && (id in t.series ==> t.series[id] == Last(Given(puts, id), s.capacity))
  {
    if puts != [] {
      var init, e := puts[..|puts| - 1], puts[|puts| - 1];
      assert e in puts && forall d <- init :: d in puts;
      MemoryOnly(s, init, id);
      var before, x := Given(init, id), Sample(e.timestamp, e.value);
      LastPush(before, x, s.capacity);
      var none: seq<Sample> := [];
      assert Last(none, s.capacity) == none;
      hide Last, Replayed, Given;
      assert Given(puts, id) == before + if e.id == id then [x] else [] by { GivenStep(puts, id); }
      assert e.id != id ==> before + [] == before;
    }
  }

  lemma GivenStep(puts: seq<Event>, id: SensorId)
    requires puts != [] && forall e <- puts :: e.Put?
    ensures var e := puts[|puts| - 1];
            Given(puts, id) == Given(puts[..|puts| - 1], id) + if e.id == id then [Sample(e.timestamp, e.value)] else []
  {}

  // ---------------------------------------------------------------------
  // After a prune
  // ---------------------------------------------------------------------

  ghost predicate Ascending(records: seq<Record>) {
    forall i, j | 0 <= i < j < |records| :: records[i].ms <= records[j].ms
  }

  /** As far as both reach back from the newest, buffer and log hold the same. */
  ghost predicate EndsMatch(samples: seq<Sample>, records: seq<Record>) {
    var n := if |samples| < |records| then |samples| else |records|;
    Matches(Last(samples, n), Last(records, n))
  }

  lemma LastOfLast<T>(s: seq<T>, m: nat, k: nat)
    requires k <= m
    ensures Last(Last(s, m), k) == Last(s, k)
  {}

  lemma LastPushed<T>(s: seq<T>, x: T, m: nat)
    ensures Last(s, m) + [x] == Last(s + [x], m + 1)
  {}

  lemma MatchesPushed(samples: seq<Sample>, records: seq<Record>, x: Sample, r: Record)
    requires Matches(samples, records) && Truncated(x.timestamp) == r.ms && x.value == r.value
    ensures Matches(samples + [x], records + [r])
  {}

  lemma EndsPush(samples: seq<Sample>, records: seq<Record>, x: Sample, r: Record, n: nat)
    requires n > 0 && EndsMatch(samples, records) && Truncated(x.timestamp) == r.ms && x.value == r.value
    ensures EndsMatch(Last(samples + [x], n), records + [r])
  {
    hide Truncated, Matches, Last;
    var m := if |samples| < |records| then |samples| else |records|;
    var longer := Last(samples + [x], n);
    var k := if |longer| < |records| + 1 then |longer| else |records| + 1;
    MatchesPushed(Last(samples, m), Last(records, m), x, r);
    LastPushed(samples, x, m);
    LastPushed(records, r, m);
    MatchesLast(Last(samples + [x], m + 1), Last(records + [r], m + 1), k);
    LastOfLast(samples + [x], m + 1, k);
    LastOfLast(records + [r], m + 1, k);
    LastOfLast(samples + [x], n, k);
  }

  /** From records in time order a prune removes the oldest. */
  lemma {:induction false} KeptIsSuffix(records: seq<Record>, cutoff: int)
    requires Ascending(records)
    ensures Kept(records, cutoff) == Last(records, |Kept(records, cutoff)|)
    ensures |Kept(records, cutoff)| <= |records|
    ensures records != [] && records[|records| - 1].ms < cutoff ==> Kept(records, cutoff) == []
  {
    if records != [] {
      var init := records[..|records| - 1];
      KeptIsSuffix(init, cutoff);
    }
  }

  /** A prune of records in time order leaves buffer and log agreeing as far as both reach. */
  lemma PruneKeepsEnds(samples: seq<Sample>, records: seq<Record>, cutoff: int)
    requires Ascending(records) && EndsMatch(samples, records)
    ensures EndsMatch(samples, Kept(records, cutoff)) && Ascending(Kept(records, cutoff))
  {
    KeptIsSuffix(records, cutoff);
    var kept := Kept(records, cutoff);
    hide Matches, Kept, Last;
    var m := if |samples| < |records| then |samples| else |records|;
    var k := if |samples| < |kept| then |samples| else |kept|;
    MatchesLast(Last(samples, m), Last(records, m), k);
    LastOfLast(samples, m, k);
    LastOfLast(records, m, k);
    LastOfLast(records, |kept|, k);
    AscendingLast(records, |kept|);
  }

  lemma AscendingLast(records: seq<Record>, n: nat)
    requires Ascending(records)
    ensures Ascending(Last(records, n))
  {}

  lemma MatchesEnds(samples: seq<Sample>, records: seq<Record>, n: nat)
    requires Matches(samples, Last(records, n))
    ensures EndsMatch(samples, records)
  {
    assert Last(samples, |samples|) == samples && Last(records, |samples|) == Last(records, n);
  }

  ghost predicate Follows(s: Store, id: SensorId)
    requires s.wal.Some?
  {
    && Ascending(Log(s.wal.value, id))
    && if id in s.series then EndsMatch(s.series[id], Log(s.wal.value, id)) else PendingOf(s.wal.value, id) == []
  }

  ghost predicate FollowsAll(s: Store) { Ready(s) && forall id :: Follows(s, id) }

  /** Each sensor's records come in time order, and no crash tears one. */
  ghost predicate Timely(s: Store, e: Event)
    requires s.wal.Some?
  {
    && Untorn(e)
    && (e.Put? ==> forall r <- Log(s.wal.value, e.id) :: r.ms <= Millis(e.timestamp))
    && (e.Restart? && e.last.Some? ==> forall r <- Log(s.wal.value, e.id) :: r.ms <= e.last.value.ms)
  }

  /** Of records in time order a replay skips the oldest. */
  lemma {:induction false} RecentIsSuffix(records: seq<WalLog.Record>, maxAge: Option<nat>, now: int)
    requires Ascending(records)
    ensures Recent(records, maxAge, now) == Last(records, |Recent(records, maxAge, now)|)
    ensures |Recent(records, maxAge, now)| <= |records|
    ensures records != [] && TooOld(records[|records| - 1], maxAge, now) ==> Recent(records, maxAge, now) == []
  {
    if records != [] {
      var init, last := records[..|records| - 1], records[|records| - 1];
      RecentIsSuffix(init, maxAge, now);
      if init != [] && TooOld(last, maxAge, now) {
        OlderTooOld(init[|init| - 1], last, maxAge, now);
      }
      hide TooOld;
    }
  }

  lemma OlderTooOld(r: WalLog.Record, later: WalLog.Record, maxAge: Option<nat>, now: int)
    requires r.ms <= later.ms && TooOld(later, maxAge, now)
    ensures TooOld(r, maxAge, now)
  {}

  lemma TouchFollows(s: Store, id: SensorId, now: int)
    requires Ready(s) && Follows(s, id)
    ensures Follows(Touched(s, id, now), id) && id in Touched(s, id, now).series
  {
    if id !in s.series {
      hide EndsMatch, Ascending, RecordsOf, Recent, Last, Matches, Samples;
      var w := s.wal.value;
      LogOfFile(w, id);
      var records := Log(w, id);
      var recent := Recent(records, s.maxAge, now);
      RecentIsSuffix(records, s.maxAge, now);
      MatchesSamples(recent);
      MatchesLast(Samples(recent), recent, s.capacity);
      var n := if |recent| < s.capacity then |recent| else s.capacity;
      LastOfLastMin(records, |recent|, s.capacity);
      MatchesEnds(Touched(s, id, now).series[id], records, n);
    }
  }

  lemma LastOfLastMin<T>(s: seq<T>, m: nat, k: nat)
    requires m <= |s|
    ensures Last(Last(s, m), k) == Last(s, if m < k then m else k)
  {}

  lemma PutFollows(s: Store, id: SensorId, value: u64, timestamp: i64, now: int, other: SensorId)
    requires Ready(s) && Follows(s, id) && Follows(s, other)
    requires forall r <- Log(s.wal.value, id) :: r.ms <= Millis(timestamp)
    ensures Follows(Recorded(s, id, value, timestamp, now), other)
  {
    hide EndsMatch, Appended, Log, Last, Whole, Truncated;
    var w, r := s.wal.value, Record(Millis(timestamp), value);
    AppendLog(w, id, r, other);
    if other == id {
      var t := Touched(s, id, now);
      TouchFollows(s, id, now);
      SameMillis(timestamp);
      EndsPush(t.series[id], Log(w, id), Sample(timestamp, value), r, s.capacity);
    } else {
      PendingElsewhere(w, id, r, other);
    }
  }

  lemma SameMillis(timestamp: i64)
    ensures Truncated(timestamp) == Millis(timestamp)
  {}

  /** What a crash leaves of a log in time order is in time order. */
  lemma CrashAscending(w: Wal, e: Event, id: SensorId)
    requires Whole(w) && e.Restart? && Untorn(e) && Ascending(Log(w, id))
    requires e.last.Some? ==> forall r <- Log(w, e.id) :: r.ms <= e.last.value.ms
    ensures var t := Crashed(w, e.id, e.last, e.cut); Ascending(Log(t, id)) && PendingOf(t, id) == []
  {
    hide RecordsOf, Crashed, Entered, Unsaved, Ascending;
    var t := Crashed(w, e.id, e.last, e.cut);
    var c := WalLog.Crash(e.id, e.last, e.cut);
    CrashHolding(w, c, id);
    CrashedFiles(w, e.id, e.last, e.cut, id);
    LogOfFile(t, id);
    EntryAscending(Holding(w, id), w.batch, c, id);
  }

  lemma EntryAscending(a: Ledger, batch: nat, c: WalLog.Event, id: SensorId)
    requires c.Crash? && Ascending(a.durable + a.waiting)
    requires c.last.Some? && c.id == id ==> forall r <- a.durable + a.waiting :: r.ms <= c.last.value.ms
    ensures Ascending(Entered(a, batch, c, id).durable)
  {
    var unsaved := a.waiting + if c.last.Some? then [c.last.value] else [];
    if c.id == id {
      var log := a.durable + unsaved;
      assert Ascending(log) by {
        assert log == a.durable + a.waiting + if c.last.Some? then [c.last.value] else [];
      }
      var kept := UpTo(unsaved, c.cut / RECORD);
      assert log == (a.durable + kept) + unsaved[|kept|..];
      AscendingPrefix(a.durable + kept, unsaved[|kept|..]);
    } else {
      AscendingPrefix(a.durable, a.waiting);
    }
  }

  lemma StepFollows(s: Store, e: Event, id: SensorId)
    requires FollowsAll(s) && Timely(s, e)
    ensures Follows(Next(s, e), id)
  {
    hide Recorded, EndsMatch, Log, AllFlushed, ReadyToRead, Crashed, Pruned, PartlyPruned, Ascending, Whole;
    var w := s.wal.value;
    assert Follows(s, id);
    match e
    case Put(other, value, timestamp, now) =>
      assert Follows(s, other);
      PutFollows(s, other, value, timestamp, now, id);
    case Flush =>
      FlushAllLog(w, id);
    case History(other) =>
      ReadLog(w, other, id);
      ReadPending(w, other, id);
    case Restart(_, _, _) =>
      CrashAscending(w, e, id);
    case Expire(cutoff) =>
      ExpireFollows(s, cutoff, id);
    case ExpireCrash(done, cutoff) =>
      ExpireCrashFollows(s, done, cutoff, id);
  }

  lemma ExpireCrashFollows(s: Store, done: set<SensorId>, cutoff: int, id: SensorId)
    requires Ready(s) && Follows(s, id)
    ensures Follows(Next(s, ExpireCrash(done, cutoff)), id)
  {
    hide EndsMatch, Log, PartlyPruned, Ascending, Whole, Kept, RecordsOf;
    var w := s.wal.value;
    PruneCrashHolding(w, done, cutoff, id);
    LogOfFile(PartlyPruned(w, done, cutoff), id);
    NothingMatches(Log(w, id));
    PruneKeepsEnds([], Log(w, id), cutoff);
  }

  lemma ExpireFollows(s: Store, cutoff: int, id: SensorId)
    requires Ready(s) && Follows(s, id)
    ensures Follows(Next(s, Expire(cutoff)), id)
  {
    hide EndsMatch, Log, Pruned, Ascending, Whole;
    var w := s.wal.value;
    PrunedPending(w, cutoff, id);
    PruneLog(w, cutoff, id);
    if id in s.series {
      PruneKeepsEnds(s.series[id], Log(w, id), cutoff);
    } else {
      NothingMatches(Log(w, id));
      PruneKeepsEnds([], Log(w, id), cutoff);
    }
  }

  lemma NothingMatches(records: seq<Record>)
    ensures EndsMatch([], records)
  {}

  lemma PrunedPending(w: Wal, cutoff: int, id: SensorId)
    ensures PendingOf(Pruned(w, cutoff), id) == []
  {
    AllFlushedFile(w, id);
    hide AllFlushed, PrunedFile;
  }

  lemma AscendingPrefix(a: seq<Record>, b: seq<Record>)
    requires Ascending(a + b)
    ensures Ascending(a)
  {
    forall i, j | 0 <= i < j < |a| ensures a[i].ms <= a[j].ms {
      assert (a + b)[i] == a[i] && (a + b)[j] == a[j];
    }
  }

  lemma FollowsStep(s: Store, e: Event)
    requires FollowsAll(s) && Timely(s, e)
    ensures FollowsAll(Next(s, e))
  {
    assert Untorn(e);
    hide Follows, Next, Timely;
    StepReady(s, e);
    forall id ensures Follows(Next(s, e), id) { StepFollows(s, e, id); }
  }

  ghost predicate TimelyRun(s: Store, events: seq<Event>)
    requires s.wal.Some?
  {
    events == [] || (TimelyRun(s, events[..|events| - 1])
                     && Timely(After(s, events[..|events| - 1]), events[|events| - 1]))
  }

  /** Whatever the age limit of replays, while each sensor's records come in time order, prunes
      and untorn crashes included: buffer and log agree from the newest record back as far as
      both of them reach. */
  lemma {:induction false} EndsAlwaysAgree(s: Store, events: seq<Event>)
    requires FollowsAll(s) && TimelyRun(s, events)
    ensures FollowsAll(After(s, events))
  {
    assert s.wal.Some?;
    hide FollowsAll, Next, Timely;
    if events != [] {
      var init := events[..|events| - 1];
      EndsAlwaysAgree(s, init);
      FollowsStep(After(s, init), events[|events| - 1]);
    }
  }

  /** A store opened on logs in time order follows them from the start, whatever its age limit. */
  lemma OpenFollows(files: map<SensorId, seq<byte>>, batch: nat, capacity: nat, maxAge: Option<nat>)
    requires capacity > 0 && forall id | id in files :: |files[id]| % RECORD == 0 && Ascending(RecordsOf(files[id]))
    ensures FollowsAll(Store(map[], Some(Wal(files, map[], batch)), capacity, maxAge))
  {
    hide RecordsOf, Ascending;
    var w := Wal(files, map[], batch);
    forall id ensures Ascending(Log(w, id)) && PendingOf(w, id) == [] {
      LogOfFile(w, id);
      if id !in files { NothingStored(); }
    }
  }

  lemma NothingStored()
    ensures RecordsOf([]) == [] && Ascending(RecordsOf([]))
  {}
}
