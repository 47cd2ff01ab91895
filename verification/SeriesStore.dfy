/** The registry object: one buffer per sensor, over a log writer or over none. Each buffer is
    held as its contents, which RecentBuffer.RingBuffer proves its operations to maintain. */
module Series {
  import opened Octets
  import opened Optional
  import opened RecentBuffer
  import opened WalLog
  import opened WalWriting
  import opened SeriesRuns

  class SeriesStore {
    const capacity: nat
    const maxAge: Option<nat>
    const wal: WalWriter?
    var series: map<SensorId, seq<Sample>>

    function State(): Store
      reads this, wal
    {
      Store(series, if wal == null then None else Some(wal.State()), capacity, maxAge)
    }

    constructor (capacity: nat, wal: WalWriter?, maxAge: Option<nat>)
      requires capacity > 0
      ensures this.wal == wal
      ensures State() == Store(map[], if wal == null then None else Some(wal.State()), capacity, maxAge)
    {
      this.capacity, this.wal, this.maxAge, series := capacity, wal, maxAge, map[];
    }

    /** A sensor's buffer, filled from its file the first time the sensor is seen. */
    method GetOrCreate(id: SensorId, now: int) returns (buffer: seq<Sample>)
      modifies this
      ensures State() == Touched(old(State()), id, now) && id in series && series[id] == buffer
    {
      if id in series { return series[id]; }
      buffer := [];
      if wal != null {
        buffer := Replay(if id in wal.files then wal.files[id] else [], now);
      }
      series := series[id := buffer];
    }

    /** Pushes every record of the file that is not too old. */
    method Replay(file: seq<byte>, now: int) returns (buffer: seq<Sample>)
      ensures buffer == Last(Samples(Recent(RecordsOf(file), maxAge, now)), capacity)
    {
      var records := ReadAll(file);
      buffer := [];
      for k := 0 to |records|
        invariant buffer == Last(Samples(Recent(records[..k], maxAge, now)), capacity)
      {
        hide Last, Samples, Recent, RecordsOf;
        RecentPush(records, k, maxAge, now);
        ghost var before := Recent(records[..k], maxAge, now);
        var ts := records[k].ms * TICKS_PER_MS;
        if maxAge.None? || now - ts <= maxAge.value * TICKS_PER_MS {
          LastPush(Samples(before), SampleOf(records[k]), capacity);
          SamplesPush(before, records[k]);
          buffer := Last(buffer + [Sample(ts, records[k].value)], capacity);
        }
      }
      assert records[..|records|] == records;
    }

    method Record(id: SensorId, value: u64, timestamp: i64, now: int)
      modifies this, wal
      ensures State() == Recorded(old(State()), id, value, timestamp, now)
    {
      hide Last, Touched, Appended;
      var buffer := GetOrCreate(id, now);
      series := series[id := Last(buffer + [Sample(timestamp, value)], capacity)];
      if wal != null {
        wal.Append(id, value, timestamp);
      }
    }

    method LatestOf(id: SensorId) returns (sample: Option<Sample>)
      ensures sample == if id in series && series[id] != [] then Some(series[id][|series[id]| - 1]) else None
    {
      if id !in series || series[id] == [] { return None; }
      sample := Some(series[id][|series[id]| - 1]);
    }

    method RecentOf(id: SensorId, count: nat) returns (samples: seq<Sample>)
      ensures samples == if id in series then Last(series[id], count) else []
      ensures Inv(State()) && id in series && count <= capacity
              ==> Matches(samples, Last(Log(State().wal.value, id), count))
    {
      if id !in series { return []; }
      samples := Last(series[id], count);
      if Inv(State()) && count <= capacity {
        assert Agrees(State(), id);
        hide Last, Matches, Log, Inv;
        MatchesLast(series[id], Last(Log(State().wal.value, id), capacity), count);
        LastOfLast(Log(State().wal.value, id), capacity, count);
      }
    }

    /** Every sample at or after `since`, oldest first: from the log if there is one. */
    method History(id: SensorId, since: i64) returns (samples: seq<Sample>)
      modifies wal
      ensures wal != null ==> State() == WithWal(old(State()), ReadyToRead(old(State()).wal.value, id))
      ensures wal != null && Whole(old(State()).wal.value)
              ==> samples == Samples(Kept(Log(old(State()).wal.value, id), Millis(since)))
      ensures wal == null ==> samples == Since(if id in series then Last(series[id], capacity) else [], since)
    {
      if wal != null {
        samples := wal.ReadSince(id, since);
        return;
      }
      var recent := RecentOf(id, capacity);
      samples := [];
      for k := 0 to |recent|
        invariant samples == Since(recent[..k], since)
      {
        assert recent[..k + 1][..k] == recent[..k];
        if recent[k].timestamp >= since {
          samples := samples + [recent[k]];
        }
      }
      assert recent[..|recent|] == recent;
    }
  }

  /** The samples at or after a time. */
  function Since(samples: seq<Sample>, since: int): seq<Sample> {
    if samples == [] then []
    else
      var last := samples[|samples| - 1];
      Since(samples[..|samples| - 1], since) + if last.timestamp >= since then [last] else []
  }

  /** It keeps the samples at or after the time, each as often as it occurs. */
  lemma {:induction false} SinceMeans(samples: seq<Sample>, since: int)
    ensures forall x :: multiset(Since(samples, since))[x] == if x.timestamp >= since then multiset(samples)[x] else 0
  {
    if samples != [] {
      var init, last := samples[..|samples| - 1], samples[|samples| - 1];
      SinceMeans(init, since);
      assert samples == init + [last];
    }
  }

  /** And keeps them in order. */
  lemma {:induction false} SinceConcat(a: seq<Sample>, b: seq<Sample>, since: int)
    ensures Since(a + b, since) == Since(a, since) + Since(b, since)
  {
    if b == [] {
      assert a + b == a;
    } else {
      var init := b[..|b| - 1];
      SinceConcat(a, init, since);
      assert (a + b)[..|a + b| - 1] == a + init && (a + b)[|a + b| - 1] == b[|b| - 1];
    }
  }
}
