/** The segment writer as a value: what each call does to the directory and the counters, and
    what whole runs keep. */
module SegmentStore {
  import opened Octets
  import opened Optional
  import opened SegmentFormat
  import opened SegmentReader
  import opened SegmentFile
  import opened Sequences

  // ---------------------------------------------------------------------
  // Directory
  // ---------------------------------------------------------------------

  /** A segment's file name: creation time, then a sequence number; text order is this order. */
  datatype Name = Name(createdMs: u64, sequence: nat) {
    predicate Before(other: Name) {
      createdMs < other.createdMs || (createdMs == other.createdMs && sequence < other.sequence)
    }
  }

  datatype File = File(name: Name, bytes: seq<byte>)

  function TotalBytes(files: seq<File>): nat {
    if files == [] then 0 else |files[0].bytes| + TotalBytes(files[1..])
  }

  predicate HasName(files: seq<File>, name: Name) {
    files != [] && (files[0].name == name || HasName(files[1..], name))
  }

  /** Adds a file to a listing in name order, replacing one of the same name (rename). */
  function Insert(files: seq<File>, f: File): seq<File> {
    if files == [] || f.name.Before(files[0].name) then [f] + files
    else if files[0].name == f.name then [f] + files[1..]
    else [files[0]] + Insert(files[1..], f)
  }

  /** Removes files from the front (the oldest) until the rest fits in `limit`. */
  function DropOldest(files: seq<File>, limit: int): seq<File> {
    if files == [] || TotalBytes(files) <= limit then files else DropOldest(files[1..], limit)
  }

  function MaxSequence(files: seq<File>): nat {
    if files == [] then 0
    else if files[0].name.sequence > MaxSequence(files[1..]) then files[0].name.sequence
    else MaxSequence(files[1..])
  }

  lemma {:induction false} NameBelowMax(files: seq<File>, name: Name)
    requires HasName(files, name)
    ensures name.sequence <= MaxSequence(files)
  {
    if files[0].name != name {
      NameBelowMax(files[1..], name);
    }
  }

  /** The first sequence number from `s` on whose name is not taken. */
  function FreeSequence(files: seq<File>, now: u64, s: nat): (r: nat)
    ensures s <= r && !HasName(files, Name(now, r)) && forall q | s <= q < r :: HasName(files, Name(now, q))
    decreases if s <= MaxSequence(files) then MaxSequence(files) + 1 - s else 0
  {
    if HasName(files, Name(now, s)) then
      NameBelowMax(files, Name(now, s));
      FreeSequence(files, now, s + 1)
    else s
  }

  // ---------------------------------------------------------------------
  // The writer
  // ---------------------------------------------------------------------

  /** What the file system does to one write_batch call. `reached` counts the bytes that made
      it to the file before the failure. */
  datatype Io = Works | CannotCreate | HeaderFails(reached: nat) | BatchFails(reached: nat)

  /** `log` lists every segment ever finished, whether or not it was deleted since. */
  datatype Writer = Writer(maxSegment: nat, maxTotal: nat, table: Table,
                           finished: seq<File>, open: Option<File>, segmentBytes: nat, sequence: nat,
                           bytesWritten: nat, completed: nat, deleted: nat, log: seq<File>)

  function Enforce(w: Writer, reserve: nat): Writer {
    if w.maxTotal == 0 then w
    else
      var kept := DropOldest(w.finished, w.maxTotal - reserve - w.segmentBytes);
      w.(finished := kept,
         deleted := w.deleted + if |w.finished| >= |kept| then |w.finished| - |kept| else 0)
  }

  function Finish(w: Writer): Writer {
    if w.open.None? then w
    else w.(finished := Insert(w.finished, w.open.value), log := w.log + [w.open.value],
            open := None, segmentBytes := 0, completed := w.completed + 1)
  }

  function Prefix(w: Writer, now: u64): seq<byte> { SegmentPrefix(now, w.table) }

  function UpTo(bytes: seq<byte>, n: nat): seq<byte> { if n <= |bytes| then bytes[..n] else bytes }

  /** Success leaves the new segment open; failure leaves none. */
  function Open(w: Writer, now: u64, io: Io): Writer {
    var s := FreeSequence(w.finished, now, w.sequence + 1);
    var name := Name(now, s);
    match io
    case CannotCreate => w.(sequence := s)
    case HeaderFails(n) => Finish(w.(sequence := s, open := Some(File(name, UpTo(Prefix(w, now), n)))))
    case _ => w.(sequence := s, open := Some(File(name, Prefix(w, now))),
                 segmentBytes := |Prefix(w, now)|, bytesWritten := w.bytesWritten + |Prefix(w, now)|)
  }

  function Append(w: Writer, batch: seq<byte>, io: Io): Writer
    requires w.open.Some?
  {
    var f := w.open.value;
    match io
    case BatchFails(n) => Finish(w.(open := Some(f.(bytes := f.bytes + UpTo(batch, n)))))
    case _ => w.(open := Some(f.(bytes := f.bytes + batch)),
                 segmentBytes := w.segmentBytes + |batch|, bytesWritten := w.bytesWritten + |batch|)
  }

  predicate NeedsSegment(w: Writer, batch: seq<byte>) {
    w.open.None? || w.segmentBytes + |batch| > w.maxSegment
  }

  function Prepare(w: Writer, batch: seq<byte>, now: u64, io: Io): Writer {
    if NeedsSegment(w, batch) then Open(Enforce(Finish(w), w.maxSegment), now, io) else w
  }

  function WriteBatch(w: Writer, batch: seq<byte>, now: u64, io: Io): Writer {
    var ready := Prepare(w, batch, now, io);
    if ready.open.None? then ready else Append(ready, batch, io)
  }

  /** Does write_batch return without throwing? */
  predicate Accepted(w: Writer, batch: seq<byte>, io: Io) {
    !io.BatchFails? && (NeedsSegment(w, batch) ==> io.Works?)
  }

  /** A writer on a directory that may hold segments of earlier runs. */
  function Start(maxSegment: nat, maxTotal: nat, table: Table, existing: seq<File>): Writer {
    Enforce(Writer(maxSegment, maxTotal, table, existing, None, 0, 0, 0, 0, 0, existing), 0)
  }

  datatype Event = Write(batch: seq<byte>, now: u64, io: Io) | Close

  function Step(w: Writer, e: Event): Writer {
    match e
    case Write(batch, now, io) => WriteBatch(w, batch, now, io)
    case Close => Finish(w)
  }

  function Run(w: Writer, events: seq<Event>): Writer
    decreases |events|
  {
    if events == [] then w else Run(Step(w, events[0]), events[1..])
  }

  // ---------------------------------------------------------------------
  // Deleting the oldest
  // ---------------------------------------------------------------------

  /** The shortest oldest-first prefix whose removal makes the rest fit, or everything. */
  lemma {:induction false} DropsShortestPrefix(files: seq<File>, limit: int)
    ensures |DropOldest(files, limit)| <= |files|
    ensures var k := |files| - |DropOldest(files, limit)|;
            && DropOldest(files, limit) == files[k..]
            && (files[k..] == [] || TotalBytes(files[k..]) <= limit)
            && forall j :: 0 <= j < k ==> TotalBytes(files[j..]) > limit
  {
    if files != [] && TotalBytes(files) > limit {
      DropsShortestPrefix(files[1..], limit);
      var k := |files| - |DropOldest(files, limit)|;
      forall j | 0 <= j < k ensures TotalBytes(files[j..]) > limit {
        if j == 0 {
          assert files[0..] == files;
        } else {
          assert files[j..] == files[1..][j - 1..];
        }
      }
    }
  }

  lemma {:induction false} TotalInsert(files: seq<File>, f: File)
    ensures TotalBytes(Insert(files, f)) <= TotalBytes(files) + |f.bytes|
  {
    if files == [] || f.name.Before(files[0].name) {
      assert ([f] + files)[1..] == files;
    } else if files[0].name == f.name {
      assert ([f] + files[1..])[1..] == files[1..];
    } else {
      TotalInsert(files[1..], f);
      assert ([files[0]] + Insert(files[1..], f))[1..] == Insert(files[1..], f);
    }
  }

  // ---------------------------------------------------------------------
  // Disk budget
  // ---------------------------------------------------------------------

  /** Everything the writer's limit counts: finished segments and the one being written. */
  function DiskBytes(w: Writer): nat {
    TotalBytes(w.finished) + if w.open.Some? then |w.open.value.bytes| else 0
  }

  ghost predicate Consistent(w: Writer) {
    w.segmentBytes == if w.open.Some? then |w.open.value.bytes| else 0
  }

  ghost predicate WithinBudget(w: Writer) {
    && Consistent(w)
    && w.maxSegment <= w.maxTotal
    && (w.open.None? ==> TotalBytes(w.finished) <= w.maxTotal)
    && (w.open.Some? ==> |w.open.value.bytes| <= w.maxSegment)
    && (w.open.Some? ==> TotalBytes(w.finished) + w.maxSegment <= w.maxTotal)
  }

  /** One batch always fits a segment of its own. */
  ghost predicate Fits(w: Writer, e: Event) {
    e.Write? ==> AlignUp(SEGMENT_HEADER + |w.table|) + |e.batch| <= w.maxSegment
  }

  ghost predicate AllFit(w: Writer, events: seq<Event>) { forall e <- events :: Fits(w, e) }

  lemma SettingsKept(w: Writer, e: Event)
    ensures Step(w, e).maxSegment == w.maxSegment && Step(w, e).maxTotal == w.maxTotal && Step(w, e).table == w.table
  {
    hide FreeSequence, DropOldest, Insert, SegmentPrefix, UpTo;
  }

  lemma FinishBudget(w: Writer)
    requires WithinBudget(w)
    ensures WithinBudget(Finish(w))
  {
    if w.open.Some? {
      TotalInsert(w.finished, w.open.value);
    }
  }

  lemma EnforceBudget(w: Writer, reserve: nat)
    requires w.open.None? && Consistent(w) && 0 < w.maxTotal && reserve <= w.maxTotal
    ensures Enforce(w, reserve).open.None? && Consistent(Enforce(w, reserve))
    ensures TotalBytes(Enforce(w, reserve).finished) + reserve <= w.maxTotal
  {
    hide DropOldest, TotalBytes;
    DropsShortestPrefix(w.finished, w.maxTotal - reserve);
    NothingTotal();
  }

  lemma NothingTotal()
    ensures TotalBytes([]) == 0
  {}

  lemma OpenBudget(w: Writer, now: u64, io: Io)
    requires w.open.None? && Consistent(w) && TotalBytes(w.finished) + w.maxSegment <= w.maxTotal
    requires AlignUp(SEGMENT_HEADER + |w.table|) <= w.maxSegment
    ensures WithinBudget(Open(w, now, io))
    ensures Open(w, now, io).open.Some? ==> Open(w, now, io).segmentBytes == AlignUp(SEGMENT_HEADER + |w.table|)
  {
    hide FreeSequence, SegmentPrefix, Insert;
    if io.HeaderFails? {
      var f := File(Name(now, FreeSequence(w.finished, now, w.sequence + 1)), UpTo(Prefix(w, now), io.reached));
      TotalInsert(w.finished, f);
    }
  }

  lemma AppendBudget(w: Writer, batch: seq<byte>, io: Io)
    requires w.open.Some? && WithinBudget(w) && w.segmentBytes + |batch| <= w.maxSegment
    ensures WithinBudget(Append(w, batch, io))
  {
    hide Insert;
    if io.BatchFails? {
      TotalInsert(w.finished, w.open.value.(bytes := w.open.value.bytes + UpTo(batch, io.reached)));
    }
  }

  lemma StepBudget(w: Writer, e: Event)
    requires WithinBudget(w) && 0 < w.maxTotal && Fits(w, e)
    ensures WithinBudget(Step(w, e))
  {
    hide WithinBudget, DropOldest, SegmentPrefix, FreeSequence, Insert, TotalBytes;
    FinishBudget(w);
    match e
    case Close =>
    case Write(batch, now, io) =>
      var ready := Prepare(w, batch, now, io);
      if NeedsSegment(w, batch) {
        BudgetFacts(w);
        EnforceBudget(Finish(w), w.maxSegment);
        OpenBudget(Enforce(Finish(w), w.maxSegment), now, io);
      }
      if ready.open.Some? {
        AppendBudget(ready, batch, io);
      }
  }

  lemma BudgetFacts(w: Writer)
    requires WithinBudget(w)
    ensures Consistent(w) && w.maxSegment <= w.maxTotal
    ensures DiskBytes(w) <= w.maxTotal
  {}

  lemma {:induction false} RunBudget(w: Writer, events: seq<Event>)
    requires WithinBudget(w) && 0 < w.maxTotal && AllFit(w, events)
    ensures WithinBudget(Run(w, events)) && Run(w, events).maxTotal == w.maxTotal
    decreases |events|
  {
    hide WithinBudget, Step;
    if events != [] {
      StepBudget(w, events[0]);
      SettingsKept(w, events[0]);
      forall e | e in events[1..] ensures Fits(Step(w, events[0]), e) {
        assert Fits(w, e);
      }
      RunBudget(Step(w, events[0]), events[1..]);
    }
  }

  /** Whatever is written, whenever writes fail, and whatever earlier runs left behind: the
      directory never exceeds its limit. */
  lemma DiskNeverExceedsLimit(maxSegment: nat, maxTotal: nat, table: Table, existing: seq<File>,
                              events: seq<Event>, k: nat)
    requires 0 < maxTotal && maxSegment <= maxTotal && k <= |events|
    requires AllFit(Start(maxSegment, maxTotal, table, existing), events)
    ensures DiskBytes(Run(Start(maxSegment, maxTotal, table, existing), events[..k])) <= maxTotal
  {
    hide WithinBudget;
    var w := Start(maxSegment, maxTotal, table, existing);
    EnforceBudget(Writer(maxSegment, maxTotal, table, existing, None, 0, 0, 0, 0, 0, existing), 0);
    StartBudget(w);
    RunBudget(w, events[..k]);
    BudgetFacts(Run(w, events[..k]));
  }

  lemma StartBudget(w: Writer)
    requires w.open.None? && Consistent(w) && w.maxSegment <= w.maxTotal && TotalBytes(w.finished) <= w.maxTotal
    ensures WithinBudget(w)
  {}

  // ---------------------------------------------------------------------
  // What deletion leaves
  // ---------------------------------------------------------------------

  /** Created before `clock`, or in its millisecond with a number already used. */
  predicate Past(name: Name, clock: u64, sequence: nat) {
    name.createdMs < clock || (name.createdMs == clock && name.sequence <= sequence)
  }

  ghost predicate Chronological(files: seq<File>) {
    forall i, j :: 0 <= i < j < |files| ==> files[i].name.Before(files[j].name)
  }

  ghost predicate Dated(files: seq<File>, clock: u64, sequence: nat) {
    Chronological(files) && forall f <- files :: Past(f.name, clock, sequence)
  }

  ghost predicate Ordered(w: Writer, clock: u64) {
    && Dated(w.log + OpenFile(w), clock, w.sequence)
    && w.deleted <= |w.log|
    && w.finished == w.log[w.deleted..]
  }

  function OpenFile(w: Writer): seq<File> { if w.open.Some? then [w.open.value] else [] }

  lemma DatedAppend(files: seq<File>, clock: u64, sequence: nat, f: File)
    requires Dated(files, clock, sequence)
    requires clock <= f.name.createdMs && sequence < f.name.sequence
    ensures Dated(files + [f], f.name.createdMs, f.name.sequence)
  {
    forall g | g in files ensures g.name.Before(f.name) && Past(g.name, f.name.createdMs, f.name.sequence) {
      assert Past(g.name, clock, sequence);
    }
  }

  lemma DatedRename(files: seq<File>, f: File, g: File, clock: u64, sequence: nat)
    requires Dated(files + [f], clock, sequence) && g.name == f.name
    ensures Dated(files + [g], clock, sequence)
  {
    forall i | 0 <= i <= |files|
      ensures (files + [g])[i].name == (files + [f])[i].name && Past((files + [g])[i].name, clock, sequence)
    {
      assert (files + [f])[i] in files + [f];
    }
  }

  /** The clock never steps back during the run. */
  function ClockAfter(clock: u64, e: Event): u64 { if e.Write? then e.now else clock }

  ghost predicate ClockBehaves(clock: u64, events: seq<Event>)
    decreases |events|
  {
    events != [] ==> clock <= ClockAfter(clock, events[0]) && ClockBehaves(ClockAfter(clock, events[0]), events[1..])
  }

  lemma {:induction false} InsertLast(files: seq<File>, f: File)
    requires forall g <- files :: g.name.Before(f.name)
    ensures Insert(files, f) == files + [f]
  {
    if files != [] {
      InsertLast(files[1..], f);
    }
  }

  lemma FinishOrdered(w: Writer, clock: u64)
    requires Ordered(w, clock)
    ensures Ordered(Finish(w), clock)
    ensures w.open.Some? ==> Finish(w).finished == w.finished + [w.open.value]
  {
    if w.open.Some? {
      var all := w.log + [w.open.value];
      forall g | g in w.finished ensures g.name.Before(w.open.value.name) {
        var i :| 0 <= i < |w.log| && w.log[i] == g;
        assert all[i].name.Before(all[|w.log|].name);
      }
      InsertLast(w.finished, w.open.value);
      assert all[w.deleted..] == w.log[w.deleted..] + [w.open.value];
      assert all + [] == all;
    }
  }

  lemma EnforceOrdered(w: Writer, clock: u64, reserve: nat)
    requires Ordered(w, clock) && w.open.None?
    ensures Ordered(Enforce(w, reserve), clock)
  {
    hide Dated;
    var limit := w.maxTotal - reserve - w.segmentBytes;
    DropsShortestPrefix(w.finished, limit);
    hide DropOldest, TotalBytes;
    var k := |w.finished| - |DropOldest(w.finished, limit)|;
    assert w.finished[k..] == w.log[w.deleted + k..];
  }

  lemma OpenOrdered(w: Writer, clock: u64, now: u64, io: Io)
    requires Ordered(w, clock) && w.open.None? && clock <= now
    ensures Ordered(Open(w, now, io), now)
  {
    hide SegmentPrefix, UpTo, Dated, FreeSequence;
    var s := FreeSequence(w.finished, now, w.sequence + 1);
    assert w.log + [] == w.log;
    if io.CannotCreate? {
      DatedLater(w.log, clock, w.sequence, now, s);
    } else {
      var bytes := if io.HeaderFails? then UpTo(Prefix(w, now), io.reached) else Prefix(w, now);
      var f := File(Name(now, s), bytes);
      DatedAppend(w.log, clock, w.sequence, f);
      FinishOrdered(w.(sequence := s, open := Some(f)), now);
    }
  }

  lemma DatedLater(files: seq<File>, clock: u64, sequence: nat, now: u64, s: nat)
    requires Dated(files, clock, sequence) && clock <= now && sequence <= s
    ensures Dated(files, now, s)
  {
    forall f | f in files ensures Past(f.name, now, s) {
      assert Past(f.name, clock, sequence);
    }
  }

  lemma AppendOrdered(w: Writer, clock: u64, batch: seq<byte>, io: Io)
    requires Ordered(w, clock) && w.open.Some?
    ensures Ordered(Append(w, batch, io), clock)
  {
    hide UpTo, Dated;
    var f := w.open.value;
    var g := f.(bytes := f.bytes + if io.BatchFails? then UpTo(batch, io.reached) else batch);
    DatedRename(w.log, f, g, clock, w.sequence);
    FinishOrdered(w.(open := Some(g)), clock);
  }

  lemma StepOrdered(w: Writer, clock: u64, e: Event)
    requires Ordered(w, clock) && clock <= ClockAfter(clock, e)
    ensures Ordered(Step(w, e), ClockAfter(clock, e))
  {
    hide Ordered, FreeSequence, SegmentPrefix;
    FinishOrdered(w, clock);
    match e
    case Close =>
    case Write(batch, now, io) =>
      var ready := Prepare(w, batch, now, io);
      if NeedsSegment(w, batch) {
        EnforceOrdered(Finish(w), clock, w.maxSegment);
        OpenOrdered(Enforce(Finish(w), w.maxSegment), clock, now, io);
      } else {
        OrderedLater(w, clock, now);
      }
      if ready.open.Some? {
        AppendOrdered(ready, now, batch, io);
      }
  }

  lemma OrderedLater(w: Writer, clock: u64, now: u64)
    requires Ordered(w, clock) && clock <= now
    ensures Ordered(w, now)
  {
    DatedLater(w.log + OpenFile(w), clock, w.sequence, now, w.sequence);
  }

  /** As long as the clock does not step back, deletions take the oldest segments: what is left
      is exactly the history minus its first `deleted` segments. */
  lemma {:induction false} RetainedIsSuffix(w: Writer, clock: u64, events: seq<Event>) returns (end: u64)
    requires Ordered(w, clock) && ClockBehaves(clock, events)
    ensures Ordered(Run(w, events), end)
    ensures Run(w, events).deleted <= |Run(w, events).log|
    ensures Run(w, events).finished == Run(w, events).log[Run(w, events).deleted..]
    decreases |events|
  {
    hide Step;
    end := clock;
    if events != [] {
      StepOrdered(w, clock, events[0]);
      end := RetainedIsSuffix(Step(w, events[0]), ClockAfter(clock, events[0]), events[1..]);
    }
  }

  /** A writer started on segments that are all older than the clock starts ordered. */
  lemma StartOrdered(maxSegment: nat, maxTotal: nat, table: Table, existing: seq<File>, clock: u64)
    requires Chronological(existing) && forall f <- existing :: f.name.createdMs < clock
    ensures Ordered(Start(maxSegment, maxTotal, table, existing), clock)
  {
    var w := Writer(maxSegment, maxTotal, table, existing, None, 0, 0, 0, 0, 0, existing);
    assert existing[0..] == existing;
    EnforceOrdered(w, clock, 0);
  }

  lemma {:induction false} TotalAppend(files: seq<File>, f: File)
    ensures TotalBytes(files + [f]) == TotalBytes(files) + |f.bytes|
  {
    if files != [] {
      TotalAppend(files[1..], f);
      assert (files + [f])[1..] == files[1..] + [f];
    } else {
      assert ([f] + [])[1..] == [];
    }
  }

  lemma {:induction false} DropKeepsLast(files: seq<File>, f: File, limit: int)
    requires |f.bytes| <= limit
    ensures f in DropOldest(files + [f], limit)
  {
    if files == [] {
      TotalAppend(files, f);
    } else {
      DropKeepsLast(files[1..], f, limit);
      assert (files + [f])[1..] == files[1..] + [f];
    }
  }

  lemma {:induction false} InsertKeeps(files: seq<File>, f: File, g: File)
    requires g in files && g.name != f.name
    ensures g in Insert(files, f)
  {
    if files[0] != g && files[0].name != f.name && !f.name.Before(files[0].name) {
      InsertKeeps(files[1..], f, g);
    }
  }

  lemma OpenKeepsFile(w: Writer, now: u64, io: Io, f: File)
    requires w.open.None? && f in w.finished
    requires f.name.createdMs < now || (f.name.createdMs == now && f.name.sequence <= w.sequence)
    ensures f in Open(w, now, io).finished
    ensures Open(w, now, io).open.Some? ==> Open(w, now, io).open.value.name != f.name
  {
    hide SegmentPrefix, UpTo, FreeSequence, Insert;
    var s := FreeSequence(w.finished, now, w.sequence + 1);
    if io.HeaderFails? {
      InsertKeeps(w.finished, File(Name(now, s), UpTo(Prefix(w, now), io.reached)), f);
    }
  }

  lemma AppendKeepsFile(w: Writer, batch: seq<byte>, io: Io, f: File)
    requires w.open.Some? && f in w.finished && w.open.value.name != f.name
    ensures f in Append(w, batch, io).finished
  {
    hide UpTo, Insert;
    if io.BatchFails? {
      InsertKeeps(w.finished, w.open.value.(bytes := w.open.value.bytes + UpTo(batch, io.reached)), f);
    }
  }

  lemma RoomKeepsFile(w: Writer, clock: u64)
    requires Ordered(w, clock) && Consistent(w) && w.open.Some? && w.segmentBytes <= w.maxSegment
    requires w.maxTotal == 0 || 2 * w.maxSegment <= w.maxTotal
    ensures w.open.value in Enforce(Finish(w), w.maxSegment).finished
  {
    FinishOrdered(w, clock);
    if w.maxTotal != 0 {
      DropKeepsLast(w.finished, w.open.value, w.maxTotal - w.maxSegment);
    }
    hide DropOldest;
  }

  /** With room for two segments, the segment a rotation has just finished is never deleted by it. */
  lemma RotationKeepsFinished(w: Writer, clock: u64, batch: seq<byte>, now: u64, io: Io)
    requires Ordered(w, clock) && clock <= now && Consistent(w)
    requires w.open.Some? && w.segmentBytes <= w.maxSegment && NeedsSegment(w, batch)
    requires w.maxTotal == 0 || 2 * w.maxSegment <= w.maxTotal
    ensures w.open.value in WriteBatch(w, batch, now, io).finished
  {
    RoomKeepsFile(w, clock);
    FinishedName(w, clock);
    hide Ordered, Enforce, Finish, Open, Append;
    var room := Enforce(Finish(w), w.maxSegment);
    OpenKeepsFile(room, now, io, w.open.value);
    var started := Open(room, now, io);
    if started.open.Some? {
      AppendKeepsFile(started, batch, io, w.open.value);
    }
  }

  lemma FinishedName(w: Writer, clock: u64)
    requires Ordered(w, clock) && w.open.Some?
    ensures var f, room := w.open.value, Enforce(Finish(w), w.maxSegment);
            && room.open.None? && room.sequence == w.sequence
            && (f.name.createdMs < clock || (f.name.createdMs == clock && f.name.sequence <= w.sequence))
  {
    assert w.open.value in w.log + [w.open.value];
  }

  // ---------------------------------------------------------------------
  // Exactly what a call deletes and writes
  // ---------------------------------------------------------------------

  /** Of the listing its first k segments are gone: with `used` more bytes the rest is within the
      limit, or nothing is left, and with one segment more it would not be. */
  ghost predicate FewestDropped(listing: seq<File>, rest: seq<File>, k: int, used: nat, maxTotal: nat) {
    && 0 <= k <= |listing| && rest == listing[k..]
    && (k == |listing| || TotalBytes(listing[k..]) + used <= maxTotal)
    && forall j | 0 <= j < k :: TotalBytes(listing[j..]) + used > maxTotal
  }

  /** The limit deletes as few segments as possible, oldest first, counting the open segment and
      the reserve; without a limit, or when everything fits, it deletes none. */
  lemma EnforceDeletesFewest(w: Writer, reserve: nat)
    ensures var t := Enforce(w, reserve);
            && t == w.(finished := t.finished, deleted := t.deleted)
            && (w.maxTotal == 0 ==> t == w)
            && (w.maxTotal > 0 ==>
                  FewestDropped(w.finished, t.finished, t.deleted - w.deleted, w.segmentBytes + reserve, w.maxTotal))
            && (TotalBytes(w.finished) + w.segmentBytes + reserve <= w.maxTotal ==> t == w)
  {
    var limit := w.maxTotal - reserve - w.segmentBytes;
    DropsShortestPrefix(w.finished, limit);
    hide DropOldest, TotalBytes;
    assert w.finished[0..] == w.finished;
  }

  /** A writer started on segments of earlier runs keeps all that fit. */
  lemma StartDeletesFewest(maxSegment: nat, maxTotal: nat, table: Table, existing: seq<File>)
    ensures var t := Start(maxSegment, maxTotal, table, existing);
            && (maxTotal == 0 || TotalBytes(existing) <= maxTotal ==> t.finished == existing && t.deleted == 0)
            && (maxTotal > 0 ==> FewestDropped(existing, t.finished, t.deleted, 0, maxTotal))
            && t.log == existing && t.open.None?
  {
    EnforceDeletesFewest(Writer(maxSegment, maxTotal, table, existing, None, 0, 0, 0, 0, 0, existing), 0);
    hide Enforce, TotalBytes;
  }

  /** A segment that a failed call has sealed. */
  function Sealed(t: Writer, io: Io): seq<File> {
    if (io.HeaderFails? || io.BatchFails?) && t.log != [] then [t.log[|t.log| - 1]] else []
  }

  /** A call that finds no open segment, or no room in it, closes it, deletes as few segments as
      possible to have room for a full one, and begins a new one with this batch, under the
      current time and the next free number. */
  lemma RotationExactly(w: Writer, clock: u64, batch: seq<byte>, now: u64, io: Io)
    requires Ordered(w, clock) && Consistent(w) && clock <= now
    requires w.open.Some? ==> |w.open.value.bytes| + |batch| > w.maxSegment
    ensures var t, listing := WriteBatch(w, batch, now, io), w.finished + OpenFile(w);
            var left := t.finished[..if |t.finished| >= |Sealed(t, io)| then |t.finished| - |Sealed(t, io)| else 0];
            && t.finished == left + Sealed(t, io)
            && (w.maxTotal == 0 || TotalBytes(listing) + w.maxSegment <= w.maxTotal ==>
                  left == listing && t.deleted == w.deleted)
            && (w.maxTotal > 0 ==> FewestDropped(listing, left, t.deleted - w.deleted, w.maxSegment, w.maxTotal))
            && (t.open.Some? <==> io.Works?)
    ensures io.Works? ==>
              var t := WriteBatch(w, batch, now, io);
              && t.open.value.bytes == SegmentPrefix(now, w.table) + batch && t.open.value.name.createdMs == now
              && w.sequence < t.open.value.name.sequence == t.sequence
              && t.bytesWritten == w.bytesWritten + |SegmentPrefix(now, w.table)| + |batch|
  {
    hide Enforce, FreeSequence, SegmentPrefix, Insert, TotalBytes, FewestDropped, Ordered, Open, Append;
    ClosedListing(w, clock);
    var room := Enforce(Finish(w), w.maxSegment);
    EnforceDeletesFewest(Finish(w), w.maxSegment);
    FinishOrdered(w, clock);
    EnforceOrdered(Finish(w), clock, w.maxSegment);
    BeginsSegment(room, clock, batch, now, io);
  }

  lemma ClosedListing(w: Writer, clock: u64)
    requires Ordered(w, clock) && Consistent(w)
    ensures var f := Finish(w);
            && f.finished == w.finished + OpenFile(w) && f.open.None? && f.segmentBytes == 0 && Consistent(f)
            && f.deleted == w.deleted && f.maxTotal == w.maxTotal && f.maxSegment == w.maxSegment
            && f.table == w.table && f.sequence == w.sequence && f.bytesWritten == w.bytesWritten
  {
    FinishOrdered(w, clock);
    hide Ordered;
    assert w.finished + [] == w.finished;
  }

  /** A new segment, its first batch, and whatever of both a failure leaves. */
  lemma BeginsSegment(w: Writer, clock: u64, batch: seq<byte>, now: u64, io: Io)
    requires Ordered(w, clock) && w.open.None? && clock <= now
    ensures var o := Open(w, now, io);
            var t := if o.open.None? then o else Append(o, batch, io);
            && t.finished == w.finished + Sealed(t, io) && t.deleted == w.deleted
            && (t.open.Some? <==> io.Works?)
            && (io.Works? ==>
                  && t.open.value.bytes == Prefix(w, now) + batch && t.open.value.name.createdMs == now
                  && w.sequence < t.open.value.name.sequence == t.sequence
                  && t.bytesWritten == w.bytesWritten + |Prefix(w, now)| + |batch|)
  {
    hide FreeSequence, SegmentPrefix, Insert, UpTo, Ordered;
    var o := Open(w, now, io);
    OpenOrdered(w, clock, now, io);
    if io.HeaderFails? { OpenSeals(w, clock, now, io); }
    if o.open.Some? && io.BatchFails? {
      FinishOrdered(o, now);
      AppendOrdered(o, now, batch, io);
      AppendSeals(o, now, batch, io);
    } else {
      NothingBefore(w.finished);
    }
  }

  lemma OpenSeals(w: Writer, clock: u64, now: u64, io: Io)
    requires Ordered(w, clock) && w.open.None? && clock <= now && io.HeaderFails?
    ensures var t := Open(w, now, io); t.log != [] && t.finished == w.finished + [t.log[|t.log| - 1]]
  {
    hide SegmentPrefix, UpTo, FreeSequence, Dated;
    var s := FreeSequence(w.finished, now, w.sequence + 1);
    var f := File(Name(now, s), UpTo(Prefix(w, now), io.reached));
    assert w.log + [] == w.log;
    DatedAppend(w.log, clock, w.sequence, f);
    FinishOrdered(w.(sequence := s, open := Some(f)), now);
  }

  lemma AppendSeals(w: Writer, clock: u64, batch: seq<byte>, io: Io)
    requires Ordered(w, clock) && w.open.Some? && io.BatchFails?
    ensures var t := Append(w, batch, io); t.log != [] && t.finished == w.finished + [t.log[|t.log| - 1]]
  {
    hide UpTo, Dated;
    var f := w.open.value;
    var g := f.(bytes := f.bytes + UpTo(batch, io.reached));
    DatedRename(w.log, f, g, clock, w.sequence);
    FinishOrdered(w.(open := Some(g)), clock);
  }

  /** A call that finds room in the open segment writes there and deletes nothing; on a failure it
      seals the segment. */
  lemma WriteStaysInSegment(w: Writer, clock: u64, batch: seq<byte>, now: u64, io: Io)
    requires Ordered(w, clock) && Consistent(w) && w.open.Some? && |w.open.value.bytes| + |batch| <= w.maxSegment
    ensures var t, f := WriteBatch(w, batch, now, io), w.open.value;
            && t.deleted == w.deleted && (t.open.Some? <==> !io.BatchFails?)
            && (!io.BatchFails? ==>
                  t == w.(open := Some(f.(bytes := f.bytes + batch)), segmentBytes := w.segmentBytes + |batch|,
                          bytesWritten := w.bytesWritten + |batch|))
            && (io.BatchFails? ==>
                  && |t.finished| == |w.finished| + 1 && t.finished[..|w.finished|] == w.finished
                  && t.finished[|w.finished|].name == f.name && t.bytesWritten == w.bytesWritten
                  && f.bytes <= t.finished[|w.finished|].bytes <= f.bytes + batch)
  {
    hide Dated, Insert;
    if io.BatchFails? {
      AppendSeals(w, clock, batch, io);
    }
  }

  /** A call succeeds exactly when it leaves a segment open, which then ends with the batch. */
  lemma AcceptedExactly(w: Writer, batch: seq<byte>, now: u64, io: Io)
    ensures var t := WriteBatch(w, batch, now, io);
            && (Accepted(w, batch, io) <==> t.open.Some?)
            && (t.open.Some? ==> |t.open.value.bytes| >= |batch|
                                 && t.open.value.bytes[|t.open.value.bytes| - |batch|..] == batch)
  {
    hide FreeSequence, SegmentPrefix, Insert, DropOldest;
  }

  /** Every segment that joins the history is counted as completed, once. */
  lemma {:induction false} CompletedCounted(w: Writer, events: seq<Event>)
    ensures var t := Run(w, events); t.completed - w.completed == |t.log| - |w.log|
    decreases |events|
  {
    hide Step;
    if events != [] {
      StepCompleted(w, events[0]);
      CompletedCounted(Step(w, events[0]), events[1..]);
    }
  }

  lemma StepCompleted(w: Writer, e: Event)
    ensures Step(w, e).completed - w.completed == |Step(w, e).log| - |w.log|
  {
    hide FreeSequence, SegmentPrefix, Insert, DropOldest;
  }

  // ---------------------------------------------------------------------
  // What the files contain
  // ---------------------------------------------------------------------

  function Contents(f: File, table: Table): seq<Batch> {
    if AlignUp(SEGMENT_HEADER + |table|) <= |f.bytes|
    then Scan(f.bytes[AlignUp(SEGMENT_HEADER + |table|)..]).delivered
    else []
  }

  /** Nothing but a prefix and whole batches. */
  ghost predicate Intact(f: File, table: Table) {
    f.bytes == SegmentPrefix(f.name.createdMs, table) + Encode(Contents(f, table))
  }

  function AllContents(files: seq<File>, table: Table): seq<Batch> {
    if files == [] then [] else Contents(files[0], table) + AllContents(files[1..], table)
  }

  lemma IntactFrom(f: File, table: Table, batches: seq<Batch>)
    requires f.bytes == SegmentPrefix(f.name.createdMs, table) + Encode(batches)
    ensures Contents(f, table) == batches && Intact(f, table)
  {
    hide SegmentPrefix, Encode, Scan;
    assert f.bytes[AlignUp(SEGMENT_HEADER + |table|)..] == Encode(batches);
    RoundTrip(batches);
  }

  lemma AllContentsCons(files: seq<File>, table: Table)
    requires files != []
    ensures AllContents(files, table) == Contents(files[0], table) + AllContents(files[1..], table)
  {
    hide Contents;
  }

  lemma {:induction false} AllContentsConcat(a: seq<File>, b: seq<File>, table: Table)
    ensures AllContents(a + b, table) == AllContents(a, table) + AllContents(b, table)
  {
    if a == [] {
      NoContents(table);
      NothingBefore(b);
      NothingBefore(AllContents(b, table));
    } else {
      hide Contents, AllContents;
      TailOfConcat(a, b);
      AllContentsConcat(a[1..], b, table);
      AllContentsCons(a, table);
      AllContentsCons(a + b, table);
      Regroup(Contents(a[0], table), AllContents(a[1..], table), AllContents(b, table));
    }
  }

  /** Everything this writer ever wrote, in order. */
  function Everything(w: Writer, first: nat): seq<File> {
    (if first <= |w.log| then w.log[first..] else []) + OpenFile(w)
  }

  /** The beginning of a prefix and batches: what any failure leaves of a segment. */
  ghost predicate Legible(f: File, table: Table) {
    exists batches: seq<Batch> :: f.bytes <= SegmentPrefix(f.name.createdMs, table) + Encode(batches)
  }

  /** All segments from position `first` of the history on are legible, the open one ends with a
      whole batch, none is longer than the limit unless at most one batch is read from it, and
      together they read back to `stored`. */
  ghost predicate Holds(w: Writer, first: nat, stored: seq<Batch>) {
    && Consistent(w)
    && first <= |w.log|
    && (forall f <- Everything(w, first) :: Legible(f, w.table))
    && (w.open.Some? ==> Intact(w.open.value, w.table))
    && (forall f <- Everything(w, first) :: |f.bytes| <= w.maxSegment || |Contents(f, w.table)| <= 1)
    && AllContents(Everything(w, first), w.table) == stored
  }

  datatype Call = Put(batch: Batch, now: u64, io: Io) | Seal

  function EventOf(c: Call): Event {
    match c
    case Put(batch, now, io) => Write(BatchBytes(batch), now, io)
    case Seal => Close
  }

  function EventsOf(cs: seq<Call>): seq<Event> {
    if cs == [] then [] else [EventOf(cs[0])] + EventsOf(cs[1..])
  }

  /** Is the batch on disk after the call? When the call was accepted, and when it failed although
      all bytes of the batch had reached the file. */
  predicate Stores(w: Writer, bytes: seq<byte>, io: Io) {
    Accepted(w, bytes, io) || (io.BatchFails? && io.reached >= |bytes|)
  }

  function StoredBy(w: Writer, c: Call): seq<Batch> {
    if c.Put? && Stores(w, BatchBytes(c.batch), c.io) then [c.batch] else []
  }

  /** The batches a run stores, in call order. */
  function Stored(w: Writer, cs: seq<Call>): seq<Batch>
    decreases |cs|
  {
    if cs == [] then [] else StoredBy(w, cs[0]) + Stored(Step(w, EventOf(cs[0])), cs[1..])
  }

  lemma IntactIsLegible(f: File, table: Table)
    requires Intact(f, table)
    ensures Legible(f, table)
  {}

  lemma FinishHolds(w: Writer, first: nat, stored: seq<Batch>)
    requires Holds(w, first, stored)
    ensures Holds(Finish(w), first, stored)
    ensures Finish(w).open.None?
  {
    hide Insert, Intact, Legible, Contents, AllContents;
    if w.open.Some? {
      assert Everything(Finish(w), first) == Everything(w, first);
    }
  }

  /** A segment joins the history: nothing else about it changes. */
  lemma AddFile(w: Writer, t: Writer, first: nat, stored: seq<Batch>, f: File, more: seq<Batch>)
    requires Holds(w, first, stored) && w.open.None? && Consistent(t)
    requires t.table == w.table && t.maxSegment == w.maxSegment
    requires first <= |t.log| && Everything(t, first) == Everything(w, first) + [f]
    requires Legible(f, w.table) && Contents(f, w.table) == more && |more| <= 1
    requires t.open.Some? ==> t.open.value == f && Intact(f, w.table)
    ensures Holds(t, first, stored + more)
  {
    hide Legible, Intact, Contents, AllContents, Everything;
    AllContentsConcat(Everything(w, first), [f], w.table);
    OneFile(f, w.table);
    forall g | g in Everything(t, first)
      ensures Legible(g, w.table) && (|g.bytes| <= w.maxSegment || |Contents(g, w.table)| <= 1)
    {
      assert g in Everything(w, first) || g == f;
    }
  }

  lemma PrefixFile(f: File, table: Table, n: nat)
    requires f.bytes == UpTo(SegmentPrefix(f.name.createdMs, table), n)
    ensures Legible(f, table) && Contents(f, table) == []
    ensures n >= |SegmentPrefix(f.name.createdMs, table)| ==> Intact(f, table)
  {
    hide SegmentPrefix, Scan;
    NothingEncoded();
    ScanNothing();
    var prefix := SegmentPrefix(f.name.createdMs, table);
    assert f.bytes <= prefix + Encode([]);
    if n >= |prefix| {
      assert prefix + Encode([]) == prefix && f.bytes[|prefix|..] == [];
    }
  }

  lemma OpenHolds(w: Writer, first: nat, stored: seq<Batch>, now: u64, io: Io)
    requires Holds(w, first, stored) && w.open.None?
    ensures var o := Open(w, now, io);
            Holds(o, first, stored) && (o.open.Some? ==> Contents(o.open.value, w.table) == [])
    ensures Open(w, now, io).open.Some? <==> io.Works? || io.BatchFails?
  {
    hide SegmentPrefix, FreeSequence, Insert, Legible, Intact, Contents;
    var o := Open(w, now, io);
    assert stored + [] == stored;
    if io.CannotCreate? {
      SameHistory(w, o, first, stored);
    } else {
      var name := Name(now, FreeSequence(w.finished, now, w.sequence + 1));
      var n := if io.HeaderFails? then io.reached else |Prefix(w, now)|;
      var f := File(name, UpTo(Prefix(w, now), n));
      PrefixFile(f, w.table, n);
      OpenedHistory(w, now, io, first, f);
      AddFile(w, o, first, stored, f, []);
    }
  }

  lemma SameHistory(w: Writer, t: Writer, first: nat, stored: seq<Batch>)
    requires Holds(w, first, stored) && t == w.(sequence := t.sequence)
    ensures Holds(t, first, stored)
  {
    hide Legible, Intact, Contents, AllContents;
    assert Everything(t, first) == Everything(w, first);
  }

  lemma OpenedHistory(w: Writer, now: u64, io: Io, first: nat, f: File)
    requires w.open.None? && !io.CannotCreate? && first <= |w.log| && Consistent(w)
    requires f == File(Name(now, FreeSequence(w.finished, now, w.sequence + 1)),
                       UpTo(Prefix(w, now), if io.HeaderFails? then io.reached else |Prefix(w, now)|))
    ensures var o := Open(w, now, io);
            && Everything(o, first) == Everything(w, first) + [f] && first <= |o.log| && Consistent(o)
            && o.table == w.table && o.maxSegment == w.maxSegment
            && (o.open.Some? ==> o.open.value == f) && (o.open.Some? <==> !io.HeaderFails?)
  {
    hide SegmentPrefix, FreeSequence, Insert;
    var o := Open(w, now, io);
    assert w.log[first..] + [] == w.log[first..];
    if io.HeaderFails? {
      assert o.log[first..] == w.log[first..] + [f];
      assert o.log[first..] + [] == o.log[first..];
    } else {
      assert UpTo(Prefix(w, now), |Prefix(w, now)|) == Prefix(w, now);
    }
  }

  lemma NothingEncoded()
    ensures Encode([]) == []
  {}

  /** The open segment takes a batch, or as much of it as reached the file before a failure. */
  lemma AppendHolds(w: Writer, first: nat, stored: seq<Batch>, batch: Batch, io: Io)
    requires Holds(w, first, stored) && w.open.Some?
    requires w.segmentBytes + RequiredSize(|batch|) <= w.maxSegment || Contents(w.open.value, w.table) == []
    ensures var more := if io.BatchFails? && io.reached < RequiredSize(|batch|) then [] else [batch];
            Holds(Append(w, BatchBytes(batch), io), first, stored + more)
  {
    hide SegmentPrefix, Contents, Intact, Legible, BatchBytes, Encode, AllContents, Insert;
    var f := w.open.value;
    var n := if io.BatchFails? then io.reached else RequiredSize(|batch|);
    var more := if n < RequiredSize(|batch|) then [] else [batch];
    var g := f.(bytes := f.bytes + UpTo(BatchBytes(batch), n));
    var done := w.log[first..];
    var t := Append(w, BatchBytes(batch), io);
    assert Everything(w, first) == done + [f] && f in done + [f];
    AppendedHistory(w, batch, io, first, g);
    GrowFile(f, w.table, batch, n);
    LastFileGrows(done, f, g, w.table, more);
    forall h | h in done + [g]
      ensures Legible(h, w.table) && (|h.bytes| <= w.maxSegment || |Contents(h, w.table)| <= 1)
    {
      if h in done {
        assert h in done + [f];
      }
    }
  }

  lemma AppendedHistory(w: Writer, batch: Batch, io: Io, first: nat, g: File)
    requires w.open.Some? && first <= |w.log| && Consistent(w)
    requires var n := if io.BatchFails? then io.reached else RequiredSize(|batch|);
             g == w.open.value.(bytes := w.open.value.bytes + UpTo(BatchBytes(batch), n))
    ensures var t := Append(w, BatchBytes(batch), io);
            && Everything(t, first) == w.log[first..] + [g] && first <= |t.log| && Consistent(t)
            && t.table == w.table && t.maxSegment == w.maxSegment
            && (t.open.Some? ==> t.open.value == g && !io.BatchFails?)
  {
    hide BatchBytes, Insert;
    var t := Append(w, BatchBytes(batch), io);
    if io.BatchFails? {
      assert t.log[first..] == w.log[first..] + [g];
      assert t.log[first..] + [] == t.log[first..];
    } else {
      assert UpTo(BatchBytes(batch), RequiredSize(|batch|)) == BatchBytes(batch);
    }
  }

  lemma LastFileGrows(done: seq<File>, f: File, g: File, table: Table, more: seq<Batch>)
    requires Contents(g, table) == Contents(f, table) + more
    ensures AllContents(done + [g], table) == AllContents(done + [f], table) + more
  {
    AllContentsConcat(done, [f], table);
    AllContentsConcat(done, [g], table);
    OneFile(f, table);
    OneFile(g, table);
    hide AllContents, Contents;
  }

  lemma OneFile(f: File, table: Table)
    ensures AllContents([f], table) == Contents(f, table)
  {
    hide Contents;
    assert [f][1..] == [];
  }

  /** An intact segment with the first n bytes of one more batch behind it. */
  lemma GrowFile(f: File, table: Table, batch: Batch, n: nat)
    requires Intact(f, table)
    ensures var g := f.(bytes := f.bytes + UpTo(BatchBytes(batch), n));
            && Legible(g, table)
            && (n >= RequiredSize(|batch|) ==> Intact(g, table))
            && Contents(g, table) == Contents(f, table) + if n < RequiredSize(|batch|) then [] else [batch]
  {
    hide SegmentPrefix, Contents, BatchBytes, Intact, Encode;
    var batches, prefix := Contents(f, table), SegmentPrefix(f.name.createdMs, table);
    var g := f.(bytes := f.bytes + UpTo(BatchBytes(batch), n));
    EncodePush(batches, batch);
    IntactBytes(f, table);
    if n >= RequiredSize(|batch|) {
      assert g.bytes == prefix + Encode(batches + [batch]);
      IntactFrom(g, table, batches + [batch]);
      IntactIsLegible(g, table);
    } else {
      CutFile(f, g, table, batch, n);
    }
  }

  lemma IntactBytes(f: File, table: Table)
    requires Intact(f, table)
    ensures f.bytes == SegmentPrefix(f.name.createdMs, table) + Encode(Contents(f, table))
  {}

  lemma EncodePush(batches: seq<Batch>, batch: Batch)
    ensures Encode(batches + [batch]) == Encode(batches) + BatchBytes(batch)
  {
    EncodeConcat(batches, [batch]);
    hide BatchBytes;
    assert [batch][1..] == [] && Encode([batch]) == BatchBytes(batch) + Encode([]);
    assert BatchBytes(batch) + [] == BatchBytes(batch);
  }

  lemma CutFile(f: File, g: File, table: Table, batch: Batch, n: nat)
    requires Intact(f, table) && n < RequiredSize(|batch|)
    requires g == f.(bytes := f.bytes + BatchBytes(batch)[..n])
    ensures Legible(g, table) && Contents(g, table) == Contents(f, table)
  {
    hide SegmentPrefix, BatchBytes, Encode, Scan, WholeBatches;
    var batches, prefix := Contents(f, table), SegmentPrefix(f.name.createdMs, table);
    var longer, cut := batches + [batch], |Encode(batches)| + n;
    EncodePush(batches, batch);
    assert g.bytes == prefix + Encode(longer)[..cut];
    assert g.bytes <= prefix + Encode(longer);
    assert g.bytes[|prefix|..] == Encode(longer)[..cut];
    Truncation(longer, cut);
    WholeBatchesPush(batches, batch, n);
    assert longer[..|batches|] == batches;
  }

  /** Whatever fails in it, a call keeps every segment legible and adds to what they hold exactly
      the batch it stored. */
  lemma StepHolds(w: Writer, first: nat, stored: seq<Batch>, c: Call)
    requires Holds(w, first, stored)
    ensures Holds(Step(w, EventOf(c)), first, stored + StoredBy(w, c))
  {
    hide Holds, FreeSequence, SegmentPrefix, Contents, BatchBytes, DropOldest, Insert, Open, Append, Enforce;
    FinishHolds(w, first, stored);
    assert stored + [] == stored;
    if c.Put? {
      var bytes := BatchBytes(c.batch);
      if NeedsSegment(w, bytes) {
        EnforceHolds(Finish(w), first, stored, w.maxSegment);
        OpenHolds(Enforce(Finish(w), w.maxSegment), first, stored, c.now, c.io);
        TableKept(w, c.now, c.io);
      }
      if Prepare(w, bytes, c.now, c.io).open.Some? {
        AppendHolds(Prepare(w, bytes, c.now, c.io), first, stored, c.batch, c.io);
      }
    }
  }

  lemma TableKept(w: Writer, now: u64, io: Io)
    ensures Open(Enforce(Finish(w), w.maxSegment), now, io).table == w.table
    ensures Open(Enforce(Finish(w), w.maxSegment), now, io).maxSegment == w.maxSegment
    ensures Enforce(Finish(w), w.maxSegment).table == w.table
  {
    hide FreeSequence, SegmentPrefix, DropOldest, Insert;
  }

  lemma EnforceHolds(w: Writer, first: nat, stored: seq<Batch>, reserve: nat)
    requires Holds(w, first, stored) && w.open.None?
    ensures Holds(Enforce(w, reserve), first, stored) && Enforce(w, reserve).open.None?
  {
    hide Contents, Intact, Legible, AllContents, DropOldest;
    assert Everything(Enforce(w, reserve), first) == Everything(w, first);
  }

  lemma {:induction false} RunHolds(w: Writer, first: nat, stored: seq<Batch>, cs: seq<Call>)
    requires Holds(w, first, stored)
    ensures Holds(Run(w, EventsOf(cs)), first, stored + Stored(w, cs))
    decreases |cs|
  {
    hide Holds, Step, StoredBy, EventOf;
    if cs == [] {
      assert stored + [] == stored;
    } else {
      StepHolds(w, first, stored, cs[0]);
      RunHolds(Step(w, EventOf(cs[0])), first, stored + StoredBy(w, cs[0]), cs[1..]);
      assert EventsOf(cs)[1..] == EventsOf(cs[1..]);
      assert stored + StoredBy(w, cs[0]) + Stored(Step(w, EventOf(cs[0])), cs[1..]) == stored + Stored(w, cs);
    }
  }

  // ---------------------------------------------------------------------
  // Reading everything back
  // ---------------------------------------------------------------------

  /** What a reader gets from the given segments, one after the other. */
  function ReadBack<T>(files: seq<File>, decodeTags: seq<byte> -> Option<T>): seq<Batch> {
    if files == [] then []
    else
      var r := ReadFile(Some(files[0].bytes), decodeTags);
      (if r.Read? then r.outcome.delivered else []) + ReadBack(files[1..], decodeTags)
  }

  lemma ReadOne<T>(f: File, table: Table, decodeTags: seq<byte> -> Option<T>)
    requires decodeTags(table).Some? && Legible(f, table)
    ensures var r := ReadFile(Some(f.bytes), decodeTags);
            (if r.Read? then r.outcome.delivered else []) == Contents(f, table)
  {
    hide SegmentPrefix, ReadFile, Encode, Scan;
    var prefix := SegmentPrefix(f.name.createdMs, table);
    if |f.bytes| < |prefix| {
      assert f.bytes == prefix[..|f.bytes|];
      ReadCutPrefix(f.name.createdMs, table, |f.bytes|, decodeTags);
    } else {
      assert f.bytes == prefix + f.bytes[|prefix|..];
      ReadPrefixed(f.name.createdMs, table, f.bytes[|prefix|..], decodeTags);
    }
  }

  lemma {:induction false} ReadLegible<T>(files: seq<File>, table: Table, decodeTags: seq<byte> -> Option<T>)
    requires decodeTags(table).Some? && forall f <- files :: Legible(f, table)
    ensures ReadBack(files, decodeTags) == AllContents(files, table)
  {
    hide Contents, SegmentPrefix, ReadFile, Legible;
    if files != [] {
      assert files[0] in files;
      ReadOne(files[0], table, decodeTags);
      ReadLegible(files[1..], table, decodeTags);
    }
  }

  lemma {:induction false} SettingsKeptByRun(w: Writer, events: seq<Event>)
    ensures Run(w, events).maxTotal == w.maxTotal && Run(w, events).table == w.table
    decreases |events|
  {
    hide Step;
    if events != [] {
      SettingsKept(w, events[0]);
      SettingsKeptByRun(Step(w, events[0]), events[1..]);
    }
  }

  /** The contents of the segments of this run that were deleted. */
  function Lost(w: Writer, first: nat): seq<Batch> {
    if first <= w.deleted <= |w.log| then AllContents(w.log[first..w.deleted], w.table) else []
  }

  /** How many of the segments left are from before this run. */
  function Older(w: Writer, first: nat): nat { if w.deleted < first then first - w.deleted else 0 }

  /** The tail of the history that deletion left, and the part of this run it removed. */
  lemma SplitHistory(end: Writer, first: nat)
    requires end.deleted <= |end.log| && end.finished == end.log[end.deleted..] && first <= |end.log|
    ensures Older(end, first) <= |end.finished|
    ensures Lost(end, first) + AllContents(end.finished[Older(end, first)..], end.table)
         == AllContents(end.log[first..], end.table)
    ensures end.deleted <= first ==> Lost(end, first) == []
    ensures forall f <- end.finished[Older(end, first)..] :: f in end.log[first..]
  {
    hide Contents, AllContents;
    var all := end.log[first..];
    var cut := if end.deleted <= first then 0 else end.deleted - first;
    SplitAt(all, cut, end.table);
    assert end.finished[Older(end, first)..] == all[cut..];
    if end.deleted >= first { assert end.log[first..end.deleted] == all[..cut]; }
    NoContents(end.table);
  }

  lemma SplitAt(files: seq<File>, k: nat, table: Table)
    requires k <= |files|
    ensures AllContents(files[..k], table) + AllContents(files[k..], table) == AllContents(files, table)
    ensures k == 0 ==> files[..k] == []
  {
    hide AllContents;
    assert files == files[..k] + files[k..];
    AllContentsConcat(files[..k], files[k..], table);
  }

  lemma NoContents(table: Table)
    ensures AllContents([], table) == []
  {}

  /** Once closed, the segments of this run that are left in the directory read back, in name
      order, to what the run stored, but for the contents of the leading segments deleted. */
  lemma ReadsBackStored<T>(w: Writer, clock: u64, cs: seq<Call>, decodeTags: seq<byte> -> Option<T>)
    requires Ordered(w, clock) && w.open.None? && Consistent(w)
    requires ClockBehaves(clock, EventsOf(cs)) && decodeTags(w.table).Some?
    ensures var first, end := |w.log|, Finish(Run(w, EventsOf(cs)));
            && Older(end, first) <= |end.finished|
            && Lost(end, first) + ReadBack(end.finished[Older(end, first)..], decodeTags) == Stored(w, cs)
            && (end.deleted <= first ==> Lost(end, first) == [])
  {
    hide Step, Contents, Intact, Legible, Ordered, FreeSequence, ReadBack, Insert, EventsOf, Stored, AllContents, Lost;
    var first := |w.log|;
    StartHolds(w, first);
    RunHolds(w, first, [], cs);
    var clockEnd := RetainedIsSuffix(w, clock, EventsOf(cs));
    var last := Run(w, EventsOf(cs));
    SettingsKeptByRun(w, EventsOf(cs));
    assert [] + Stored(w, cs) == Stored(w, cs);
    FinishHolds(last, first, Stored(w, cs));
    FinishOrdered(last, clockEnd);
    ReadHeld(Finish(last), clockEnd, first, Stored(w, cs), decodeTags);
  }

  /** Reading the segments of this run that are left. */
  lemma ReadHeld<T>(end: Writer, clock: u64, first: nat, stored: seq<Batch>, decodeTags: seq<byte> -> Option<T>)
    requires Holds(end, first, stored) && Ordered(end, clock) && end.open.None? && decodeTags(end.table).Some?
    ensures Older(end, first) <= |end.finished|
    ensures Lost(end, first) + ReadBack(end.finished[Older(end, first)..], decodeTags) == stored
    ensures end.deleted <= first ==> Lost(end, first) == []
  {
    hide Contents, Legible, Intact, ReadBack, AllContents, Lost;
    OrderedFacts(end, clock);
    hide Ordered;
    assert Everything(end, first) == end.log[first..];
    SplitHistory(end, first);
    ReadLegible(end.finished[Older(end, first)..], end.table, decodeTags);
  }

  lemma StartHolds(w: Writer, first: nat)
    requires w.open.None? && Consistent(w) && first == |w.log|
    ensures Holds(w, first, [])
  {
    assert Everything(w, first) == [];
  }

  lemma OrderedFacts(w: Writer, clock: u64)
    requires Ordered(w, clock)
    ensures w.deleted <= |w.log| && w.finished == w.log[w.deleted..]
  {}
}
