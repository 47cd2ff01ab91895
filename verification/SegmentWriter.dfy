/** The segment writer as the source has it: an object whose methods update the open file, the
    directory and the counters. Each method is tied to the value-level step of SegmentStore. */
module SegmentWriting {
  import opened Octets
  import opened Optional
  import opened SegmentFormat
  import opened SegmentReader
  import opened SegmentFile
  import Store = SegmentStore

  class SegmentWriter {
    const maxSegment: nat
    const maxTotal: nat
    const table: Table
    var finished: seq<Store.File>
    var out: Option<Store.File>
    var segmentBytes: nat
    var sequence: nat
    var recovered: nat
    var bytesWritten: nat
    var completed: nat
    var deleted: nat
    ghost var log: seq<Store.File>

    ghost function State(): Store.Writer
      reads this
    {
      Store.Writer(maxSegment, maxTotal, table, finished, out, segmentBytes, sequence, bytesWritten,
                   completed, deleted, log)
    }

    /** Segments left unfinished by a crash are finalised first, then the limit is applied. */
    constructor (maxSegment: nat, maxTotal: nat, table: Table, listing: seq<Store.File>, partial: seq<Store.File>)
      ensures recovered == |partial|
      ensures State() == Store.Start(maxSegment, maxTotal, table, Recovered(listing, partial))
    {
      this.maxSegment, this.maxTotal, this.table := maxSegment, maxTotal, table;
      out, segmentBytes, sequence, recovered := None, 0, 0, 0;
      bytesWritten, completed, deleted := 0, 0, 0;
      finished := listing;
      new;
      for i := 0 to |partial|
        invariant recovered == i && finished == Recovered(listing, partial[..i])
        invariant State() == Store.Writer(maxSegment, maxTotal, table, finished, None, 0, 0, 0, 0, 0, log)
        invariant this.maxSegment == maxSegment && this.maxTotal == maxTotal && this.table == table
      {
        assert partial[..i + 1][..i] == partial[..i];
        finished := Store.Insert(finished, partial[i]);
        recovered := recovered + 1;
      }
      assert partial[..|partial|] == partial;
      log := finished;
      EnforceTotalLimit(0);
    }

    method EnforceTotalLimit(reserve: nat)
      modifies this`finished, this`deleted
      ensures State() == Store.Enforce(old(State()), reserve)
    {
      if maxTotal == 0 {
        return;
      }
      var total := segmentBytes;
      for i := 0 to |finished|
        invariant total == segmentBytes + Store.TotalBytes(finished) - Store.TotalBytes(finished[i..])
      {
        total := total + |finished[i].bytes|;
        assert finished[i..][1..] == finished[i + 1..];
      }
      var listing, limit := finished, maxTotal - reserve - segmentBytes;
      var kept := listing;
      Store.DropsShortestPrefix(listing, limit);
      while kept != [] && total + reserve > maxTotal
        invariant total == segmentBytes + Store.TotalBytes(kept)
        invariant Store.DropOldest(kept, limit) == Store.DropOldest(listing, limit)
        invariant deleted + |kept| == old(deleted) + |listing| && |kept| <= |listing|
        decreases |kept|
      {
        total := total - |kept[0].bytes|;
        kept := kept[1..];
        deleted := deleted + 1;
      }
      finished := kept;
    }

    method FinishSegment()
      modifies this
      ensures State() == Store.Finish(old(State()))
    {
      if out.None? {
        return;
      }
      finished := Store.Insert(finished, out.value);
      log := log + [out.value];
      out := None;
      completed := completed + 1;
      segmentBytes := 0;
    }

    /** Counts up to a file name that is not taken. */
    method NextSequence(now: u64)
      modifies this`sequence
      ensures sequence == Store.FreeSequence(finished, now, old(sequence) + 1)
    {
      sequence := sequence + 1;
      while Store.HasName(finished, Store.Name(now, sequence))
        invariant Store.FreeSequence(finished, now, sequence) == Store.FreeSequence(finished, now, old(sequence) + 1)
        decreases if sequence <= Store.MaxSequence(finished) then Store.MaxSequence(finished) + 1 - sequence else 0
      {
        Store.NameBelowMax(finished, Store.Name(now, sequence));
        sequence := sequence + 1;
      }
    }

    method OpenSegment(now: u64, io: Store.Io) returns (ok: bool)
      requires out.None?
      modifies this
      ensures State() == Store.Open(old(State()), now, io)
      ensures ok == out.Some?
    {
      hide SegmentPrefix, Store.FreeSequence, Store.Insert;
      NextSequence(now);
      if io.CannotCreate? {
        return false;
      }
      var prefix := SegmentPrefix(now, table);
      if io.HeaderFails? {
        out := Some(Store.File(Store.Name(now, sequence), Store.UpTo(prefix, io.reached)));
        FinishSegment();
        return false;
      }
      out := Some(Store.File(Store.Name(now, sequence), prefix));
      segmentBytes := |prefix|;
      bytesWritten := bytesWritten + segmentBytes;
      return true;
    }

    /** Returns false where the source throws. */
    method WriteBatch(batch: seq<byte>, now: u64, io: Store.Io) returns (ok: bool)
      modifies this
      ensures State() == Store.WriteBatch(old(State()), batch, now, io)
      ensures ok == Store.Accepted(old(State()), batch, io)
    {
      hide SegmentPrefix, Store.FreeSequence, Store.Insert, Store.DropOldest;
      if out.None? {
        EnforceTotalLimit(maxSegment);
        ok := OpenSegment(now, io);
        if !ok { return; }
      } else if segmentBytes + |batch| > maxSegment {
        FinishSegment();
        EnforceTotalLimit(maxSegment);
        ok := OpenSegment(now, io);
        if !ok { return; }
      }
      if io.BatchFails? {
        out := Some(out.value.(bytes := out.value.bytes + Store.UpTo(batch, io.reached)));
        FinishSegment();
        return false;
      }
      out := Some(out.value.(bytes := out.value.bytes + batch));
      segmentBytes := segmentBytes + |batch|;
      bytesWritten := bytesWritten + |batch|;
      ok := true;
    }

    method Close()
      modifies this
      ensures State() == Store.Finish(old(State()))
    {
      FinishSegment();
    }
  }

  /** The finished segments once every leftover partial file has been renamed. */
  function Recovered(listing: seq<Store.File>, partial: seq<Store.File>): seq<Store.File> {
    if partial == [] then listing
    else Store.Insert(Recovered(listing, partial[..|partial| - 1]), partial[|partial| - 1])
  }

  ghost predicate AllDistinct(listing: seq<Store.File>, partial: seq<Store.File>) {
    && (forall i, j | 0 <= i < j < |partial| :: partial[i].name != partial[j].name)
    && forall g, h | g in listing && h in partial :: g.name != h.name
  }

  /** No file is lost in that: every segment and every leftover one is in the listing. */
  lemma {:induction false} RecoveredKeeps(listing: seq<Store.File>, partial: seq<Store.File>, f: Store.File)
    requires (f in listing || f in partial) && AllDistinct(listing, partial)
    ensures f in Recovered(listing, partial)
  {
    hide AllDistinct, Store.Insert;
    if partial != [] {
      var n := |partial| - 1;
      if f == partial[n] {
        InsertAdds(Recovered(listing, partial[..n]), f);
      } else {
        AmongOthers(listing, partial, f);
        RecoveredKeeps(listing, partial[..n], f);
        Store.InsertKeeps(Recovered(listing, partial[..n]), partial[n], f);
      }
    }
  }

  lemma AmongOthers(listing: seq<Store.File>, partial: seq<Store.File>, f: Store.File)
    requires (f in listing || f in partial) && AllDistinct(listing, partial) && partial != []
    requires f != partial[|partial| - 1]
    ensures f in listing || f in partial[..|partial| - 1]
    ensures AllDistinct(listing, partial[..|partial| - 1]) && f.name != partial[|partial| - 1].name
  {
    var n := |partial| - 1;
    assert partial[n] in partial;
    if f !in listing {
      var i :| 0 <= i < n && partial[i] == f;
      assert partial[..n][i] == f;
    }
    assert forall g <- partial[..n] :: g in partial;
  }

  lemma {:induction false} InsertAdds(files: seq<Store.File>, f: Store.File)
    ensures f in Store.Insert(files, f)
  {
    if files != [] && !f.name.Before(files[0].name) && files[0].name != f.name {
      InsertAdds(files[1..], f);
    }
  }
}
