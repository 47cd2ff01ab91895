/** The log writer object. `files` is the directory of .wal files, by sensor. */
module WalWriting {
  import opened Octets
  import opened RecentBuffer
  import opened WalLog

  /** Replay and reads give back times in nanoseconds. */
  function SampleOf(r: Record): Sample { Sample(r.ms * TICKS_PER_MS, r.value) }

  function Samples(records: seq<Record>): (samples: seq<Sample>)
    ensures |samples| == |records|
  {
    seq(|records|, k requires 0 <= k < |records| => SampleOf(records[k]))
  }

  /** The writer once the records of some sensors have been flushed. */
  ghost function FlushedSome(w: Wal, done: set<SensorId>): Wal {
    w.(files := map id | id in w.files.Keys + Waiting(w) * done ::
                  if id in done then FileOf(w.files, id) + LogBytes(PendingOf(w, id)) else FileOf(w.files, id),
       pending := map id | id in w.pending :: if id in done then [] else w.pending[id])
  }

  lemma FlushedNone(w: Wal)
    ensures FlushedSome(w, {}) == w
  {
    hide LogBytes;
    assert w.files.Keys + Waiting(w) * {} == w.files.Keys;
  }

  lemma FlushedOne(w: Wal, done: set<SensorId>, id: SensorId)
    requires id in w.pending && id !in done
    ensures var t := FlushedSome(w, done);
            FlushedSome(w, done + {id}) == if t.pending[id] != [] then Flushed(t, id) else t
  {
    var t, v := FlushedSome(w, done), FlushedSome(w, done + {id});
    NoBytes(FileOf(w.files, id));
    hide LogBytes;
    assert t.pending[id] == PendingOf(w, id) == PendingOf(t, id);
    assert v.pending == t.pending[id := []];
    if w.pending[id] == [] {
      assert t.pending[id := []] == t.pending;
      assert v.files == t.files;
    } else {
      assert FileOf(t.files, id) == FileOf(w.files, id);
      assert v.files.Keys == t.files.Keys + {id};
      assert v.files == t.files[id := FileOf(t.files, id) + LogBytes(PendingOf(w, id))];
    }
  }

  lemma NoBytes(file: seq<byte>)
    ensures file + LogBytes([]) == file
  {}

  lemma FlushedEvery(w: Wal)
    ensures FlushedSome(w, w.pending.Keys) == AllFlushed(w)
  {
    var t, u := FlushedSome(w, w.pending.Keys), AllFlushed(w);
    assert Waiting(w) * w.pending.Keys == Waiting(w);
    forall id | id in w.files.Keys + Waiting(w) ensures t.files[id] == u.files[id] {
      NoBytes(FileOf(w.files, id));
      hide LogBytes, Waiting;
    }
    hide LogBytes, Waiting, FileOf;
  }

  lemma PrunedNone(files: map<SensorId, seq<byte>>, cutoff: int)
    ensures PrunedSome(files, {}, cutoff) == files
  {}

  lemma PrunedEvery(files: map<SensorId, seq<byte>>, cutoff: int)
    ensures PrunedSome(files, files.Keys, cutoff) == map id | id in files :: PrunedFile(files[id], cutoff)
  {
    hide PrunedFile;
  }

  lemma PrunedOne(files: map<SensorId, seq<byte>>, done: set<SensorId>, id: SensorId, cutoff: int)
    requires id in files && id !in done
    ensures PrunedSome(files, done, cutoff)[id] == files[id]
    ensures PrunedSome(files, done + {id}, cutoff)
         == PrunedSome(files, done, cutoff)[id := PrunedFile(files[id], cutoff)]
  {
    hide PrunedFile;
  }

  class WalWriter {
    const batch: nat
    var files: map<SensorId, seq<byte>>
    var pending: map<SensorId, seq<Record>>

    function State(): Wal
      reads this
    {
      Wal(files, pending, batch)
    }

    /** A writer starts on whatever files are in its directory. */
    constructor (directory: map<SensorId, seq<byte>>, batch: nat)
      ensures State() == Wal(directory, map[], batch)
    {
      this.batch, files, pending := batch, directory, map[];
    }

    method FlushLocked(id: SensorId)
      modifies this
      ensures State() == Flushed(old(State()), id)
    {
      var buffer := if id in pending then pending[id] else [];
      var file := if id in files then files[id] else [];
      files := files[id := file + LogBytes(buffer)];
      pending := pending[id := []];
    }

    method Append(id: SensorId, value: u64, timestamp: i64)
      modifies this
      ensures State() == Appended(old(State()), id, Record(Millis(timestamp), value))
    {
      var ms := Millis(timestamp);
      var buffer := (if id in pending then pending[id] else []) + [Record(ms, value)];
      pending := pending[id := buffer];
      if |buffer| >= batch {
        FlushLocked(id);
      }
    }

    method FlushAll()
      modifies this
      ensures State() == AllFlushed(old(State()))
    {
      ghost var was := State();
      var left := pending.Keys;
      FlushedNone(was);
      while left != {}
        invariant left <= was.pending.Keys == pending.Keys
        invariant State() == FlushedSome(was, was.pending.Keys - left)
        decreases |left|
      {
        var id :| id in left;
        ghost var done := was.pending.Keys - left;
        FlushedOne(was, done, id);
        if pending[id] != [] {
          FlushLocked(id);
        }
        assert was.pending.Keys - (left - {id}) == done + {id};
        left := left - {id};
      }
      assert was.pending.Keys - {} == was.pending.Keys;
      FlushedEvery(was);
    }

    /** A sensor's samples at or after `since`, oldest first, pending ones included. */
    method ReadSince(id: SensorId, since: i64) returns (samples: seq<Sample>)
      modifies this
      ensures State() == ReadyToRead(old(State()), id)
      ensures samples == Samples(Kept(RecordsOf(FileOf(files, id)), Millis(since)))
      ensures Whole(old(State())) ==> samples == Samples(Kept(Log(old(State()), id), Millis(since)))
    {
      ghost var was := State();
      if id in pending && pending[id] != [] {
        FlushLocked(id);
      }
      var sinceMs := Millis(since);
      var records := ReadAll(if id in files then files[id] else []);
      samples := [];
      for k := 0 to |records|
        invariant samples == Samples(Kept(records[..k], sinceMs))
      {
        assert records[..k + 1][..k] == records[..k];
        if records[k].ms >= sinceMs {
          samples := samples + [SampleOf(records[k])];
        }
      }
      assert records[..|records|] == records;
      if Whole(was) {
        ReadLog(was, id, id);
      }
    }

    /** Rewrites one file without its expired records, if it has any. */
    method PruneFile(id: SensorId, cutoff: int) returns (removed: nat)
      requires id in files
      modifies this`files
      ensures files == old(files)[id := PrunedFile(old(files)[id], cutoff)]
      ensures removed == |RecordsOf(old(files)[id])| - |Kept(RecordsOf(old(files)[id]), cutoff)|
      ensures removed == 0 ==> files == old(files)
    {
      var records := ReadAll(files[id]);
      var kept := Filter(records, cutoff);
      KeptSize(records, cutoff);
      if |kept| == |records| {
        assert files == files[id := files[id]];
        return 0;
      }
      files := files[id := LogBytes(kept)];
      removed := |records| - |kept|;
    }

    method PruneFiles(cutoff: int) returns (removed: nat)
      modifies this`files
      ensures files == map id | id in old(files) :: PrunedFile(old(files)[id], cutoff)
      ensures removed == |Expired(old(files), old(files).Keys, cutoff)|
      ensures removed == 0 ==> files == old(files)
    {
      hide PrunedFile, RecordsOf, Kept, PrunedSome, Expired;
      ghost var was := files;
      removed := 0;
      var left := files.Keys;
      PrunedNone(was, cutoff);
      NoneExpired(was, cutoff);
      assert was.Keys - left == {};
      while left != {}
        invariant left <= was.Keys == files.Keys
        invariant files == PrunedSome(was, was.Keys - left, cutoff)
        invariant removed == |Expired(was, was.Keys - left, cutoff)|
        invariant removed == 0 ==> files == was
        decreases |left|
      {
        var id :| id in left;
        ghost var done := was.Keys - left;
        PrunedOne(was, done, id, cutoff);
        ExpiredOne(was, done, id, cutoff);
        var dropped := PruneFile(id, cutoff);
        removed := removed + dropped;
        assert was.Keys - (left - {id}) == done + {id};
        left := left - {id};
      }
      assert was.Keys - {} == was.Keys;
      PrunedEvery(was, cutoff);
    }

    /** Drops records older than `now - maxAge` from every file; `removed` counts them. */
    method PruneOlderThan(now: i64, maxAge: i64) returns (removed: nat)
      requires -0x8000_0000_0000_0000 <= now - maxAge < 0x8000_0000_0000_0000
      modifies this
      ensures State() == Pruned(old(State()), Millis(now - maxAge))
      ensures var flushed := AllFlushed(old(State())).files;
              removed == |Expired(flushed, flushed.Keys, Millis(now - maxAge))|
      ensures removed == 0 ==> State() == AllFlushed(old(State()))
    {
      hide AllFlushed, PrunedFile, Expired;
      FlushAll();
      var cutoff := Millis(now - maxAge);
      removed := PruneFiles(cutoff);
    }

    static method Filter(records: seq<Record>, cutoff: int) returns (kept: seq<Record>)
      ensures kept == Kept(records, cutoff)
    {
      kept := [];
      for k := 0 to |records|
        invariant kept == Kept(records[..k], cutoff)
      {
        assert records[..k + 1][..k] == records[..k];
        if records[k].ms >= cutoff {
          kept := kept + [records[k]];
        }
      }
      assert records[..|records|] == records;
    }
  }
}
