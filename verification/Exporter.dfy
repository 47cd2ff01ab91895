/** The export pipeline end to end: any number of threads submit readings through a mutex into
    the ring buffer, one consumer thread drains it into batches and hands them to the segment
    writer, and a stop call drains everything. Every shared-memory operation is its own step. */
module Exporter {
  import opened Octets
  import opened Optional
  import opened SegmentFormat
  import opened Sequences
  import SegmentFile
  import opened SegmentReader
  import Ring = SpscRing
  import Store = SegmentStore

  // ---------------------------------------------------------------------
  // State
  // ---------------------------------------------------------------------

  /** Who is inside the producer mutex, and how far. */
  datatype Holder = Free | Checking(sample: Sample) | Pushing(sample: Sample) | Starting | Stopping

  /** How far the stop call that closed the door has come. */
  datatype Stopper = Idle | Exchanging | Requesting | Joining | Closing

  datatype Gate = Gate(holder: Holder, stopper: Stopper, accepting: bool, running: bool, stopRequested: bool)

  /** Where the consumer thread stands in its loop. */
  datatype Phase = Done | Top | Drain | Popping | Decide | CheckingEmpty

  datatype Worker = Worker(phase: Phase, stopping: bool, batch: seq<Sample>)

  /** What became of a batch handed to the segment writer: accepted; refused although all its
      bytes had reached the file; refused with part of it missing. */
  datatype Fate = Sent | FailedWhole | FailedCut

  /** The segment writer, every batch it was handed, in order, and what became of each. */
  datatype Sink = Sink(writer: Store.Writer, clock: u64, handed: seq<Batch>, fates: seq<Fate>, sent: nat, failed: nat)

  datatype Counters = Counters(calls: nat, ingested: nat, dropped: nat, unknown: nat)

  datatype State = State(tagIds: map<string, u32>, batchSize: nat, ring: Ring.Ring<Sample>,
                         gate: Gate, worker: Worker, sink: Sink, counters: Counters)

  datatype Event =
    | Submit(sensor: string, value: u64, ms: int) | CheckAccepting
    | ReloadHead(seen: nat) | Construct | PublishTail | SubmitReturns
    | StartCall | StartBody
    | StopCall | StopBody | StopExchange | StopRequest | StopJoin | StopClose
    | ReadStop(observed: bool) | TryPop | ReloadTail(seen: nat) | MoveOut | Destroy | PublishHead | PopReturns
    | Flush(due: bool, now: u64, io: Store.Io) | CheckEmpty(seen: nat, now: u64, io: Store.Io)

  predicate ConsumerRingStep(e: Event) { e.ReloadTail? || e.MoveOut? || e.Destroy? || e.PublishHead? }

  predicate ProducerRingStep(e: Event) { e.ReloadHead? || e.Construct? || e.PublishTail? }

  /** Steps of the consumer thread. */
  predicate ConsumerStep(e: Event) {
    e.ReadStop? || e.TryPop? || ConsumerRingStep(e) || e.PopReturns? || e.Flush? || e.CheckEmpty?
  }

  /** Timestamps before the epoch become zero. */
  function MakeSample(tag: u32, value: u64, ms: int): Sample
    requires ms < 0x1_0000_0000_0000_0000
  {
    Sample(if ms < 0 then 0 else ms, value, tag, 0, 0, 0, 0)
  }

  predicate Full(s: State) { |s.worker.batch| >= s.batchSize }

  predicate Enabled(s: State, e: Event) {
    match e
    case Submit(sensor, _, ms) => ms < 0x1_0000_0000_0000_0000 && (sensor in s.tagIds ==> s.gate.holder.Free?)
    case CheckAccepting => s.gate.holder.Checking?
    case SubmitReturns => s.gate.holder.Pushing? && s.ring.producer.Resting?
    case StartCall => s.gate.holder.Free? && s.gate.stopper.Idle?
    case StartBody => s.gate.holder.Starting?
    case StopCall => s.gate.holder.Free?
    case StopBody => s.gate.holder.Stopping?
    case StopExchange => s.gate.stopper.Exchanging?
    case StopRequest => s.gate.stopper.Requesting?
    case StopJoin => s.gate.stopper.Joining? && s.worker.phase.Done?
    case StopClose => s.gate.stopper.Closing?
    case ReloadHead(seen) => s.gate.holder.Pushing? && Ring.Enabled(s.ring, Ring.ReloadHead(seen))
    case Construct => s.gate.holder.Pushing? && s.ring.producer.Ready?
    case PublishTail => s.gate.holder.Pushing? && s.ring.producer.Built?
    case ReadStop(observed) => s.worker.phase.Top? && (observed ==> s.gate.stopRequested)
    case TryPop => s.worker.phase.Drain?
    case ReloadTail(seen) => s.worker.phase.Popping? && Ring.Enabled(s.ring, Ring.ReloadTail(seen))
    case MoveOut => s.worker.phase.Popping? && s.ring.consumer.Taking?
    case Destroy => s.worker.phase.Popping? && s.ring.consumer.Taken?
    case PublishHead => s.worker.phase.Popping? && s.ring.consumer.Destroyed?
    case PopReturns => s.worker.phase.Popping? && s.ring.consumer.Waiting?
    case Flush(due, now, _) => s.worker.phase.Decide? && (due ==> s.worker.batch != []) && s.sink.clock <= now
    case CheckEmpty(seen, now, _) =>
      && s.worker.phase.CheckingEmpty? && s.sink.clock <= now
      && s.ring.tailCached <= seen <= s.ring.tail && s.ring.floor <= seen
  }

  // ---------------------------------------------------------------------
  // Steps, component by component
  // ---------------------------------------------------------------------

  /** The ring operation a step performs, if any. */
  function RingEvent(s: State, e: Event): Option<Ring.Event<Sample>>
    requires Enabled(s, e)
  {
    match e
    case CheckAccepting => if s.gate.accepting then Some(Ring.BeginPush(s.gate.holder.sample)) else None
    case ReloadHead(seen) => Some(Ring.ReloadHead(seen))
    case Construct => Some(Ring.Construct)
    case PublishTail => Some(Ring.PublishTail)
    case ReadStop(observed) => if observed then Some(Ring.Synchronise(s.ring.tail)) else None
    case TryPop => if Full(s) then None else Some(Ring.BeginPop)
    case ReloadTail(seen) => Some(Ring.ReloadTail(seen))
    case MoveOut => Some(Ring.MoveOut)
    case Destroy => Some(Ring.Destroy)
    case PublishHead => Some(Ring.PublishHead)
    case _ => None
  }

  function NextRing(s: State, e: Event): Ring.Ring<Sample>
    requires Enabled(s, e)
  {
    var r := RingEvent(s, e);
    if r.Some? && Ring.Possible(s.ring, r.value) then Ring.Next(s.ring, r.value) else s.ring
  }

  function NextGate(s: State, e: Event): Gate
    requires Enabled(s, e)
  {
    var g := s.gate;
    match e
    case Submit(sensor, value, ms) =>
      if sensor in s.tagIds then g.(holder := Checking(MakeSample(s.tagIds[sensor], value, ms))) else g
    case CheckAccepting => g.(holder := if g.accepting then Pushing(g.holder.sample) else Free)
    case SubmitReturns => g.(holder := Free)
    case StartCall => g.(holder := Starting)
    case StartBody =>
      if g.accepting then g.(holder := Free)
      else g.(holder := Free, accepting := true, running := true,
              stopRequested := if g.running then g.stopRequested else false)
    case StopCall => g.(holder := Stopping)
    case StopBody =>
      if g.accepting then g.(holder := Free, accepting := false, stopper := Exchanging) else g.(holder := Free)
    case StopExchange => g.(running := false, stopper := if g.running then Requesting else Closing)
    case StopRequest => g.(stopRequested := true, stopper := Joining)
    case StopJoin => g.(stopper := Closing)
    case StopClose => g.(stopper := Idle)
    case _ => g
  }

  function NextWorker(s: State, e: Event): Worker
    requires Enabled(s, e)
  {
    var w := s.worker;
    match e
    case StartBody =>
      if s.gate.accepting || s.gate.running then w else Worker(Top, false, [])
    case ReadStop(observed) => w.(phase := Drain, stopping := observed)
    case TryPop => w.(phase := if Full(s) then Decide else Popping)
    case PopReturns =>
      if s.ring.consumer.got.Some? then w.(batch := w.batch + [s.ring.consumer.got.value], phase := Drain)
      else w.(phase := Decide)
    case Flush(due, _, _) =>
      if Full(s) || due then w.(batch := [], phase := Top)
      else w.(phase := if w.stopping then CheckingEmpty else Top)
    case CheckEmpty(seen, _, _) =>
      if seen != s.ring.head then w.(phase := Top) else w.(batch := [], phase := Done)
    case _ => w
  }

  /** The steps that hand the batch to the sink. */
  predicate Sends(s: State, e: Event) {
    || (e.Flush? && (Full(s) || e.due))
    || (e.CheckEmpty? && e.seen == s.ring.head && s.worker.batch != [])
  }

  function FateOf(w: Store.Writer, bytes: seq<byte>, io: Store.Io): Fate {
    if Store.Accepted(w, bytes, io) then Sent else if Store.Stores(w, bytes, io) then FailedWhole else FailedCut
  }

  /** send_batch: encode, hand over, count. */
  function Send(k: Sink, batch: Batch, now: u64, io: Store.Io): Sink {
    var bytes := BatchBytes(batch);
    var ok := Store.Accepted(k.writer, bytes, io);
    Sink(Store.WriteBatch(k.writer, bytes, now, io), now, k.handed + [batch], k.fates + [FateOf(k.writer, bytes, io)],
         k.sent + (if ok then 1 else 0), k.failed + (if ok then 0 else 1))
  }

  function NextSink(s: State, e: Event): Sink
    requires Enabled(s, e)
  {
    if Sends(s, e) && |s.worker.batch| < MAX_COUNT then Send(s.sink, s.worker.batch, e.now, e.io)
    else if e.StopClose? then s.sink.(writer := Store.Finish(s.sink.writer))
    else s.sink
  }

  function NextCounters(s: State, e: Event): Counters
    requires Enabled(s, e)
  {
    var c := s.counters;
    match e
    case Submit(sensor, _, _) => if sensor in s.tagIds then c else c.(unknown := c.unknown + 1)
    case CheckAccepting => if s.gate.accepting then c.(calls := c.calls + 1) else c
    case SubmitReturns =>
      if s.ring.producer.pushed then c.(ingested := c.ingested + 1) else c.(dropped := c.dropped + 1)
    case _ => c
  }

  function Next(s: State, e: Event): State
    requires Enabled(s, e)
  {
    State(s.tagIds, s.batchSize, NextRing(s, e), NextGate(s, e), NextWorker(s, e), NextSink(s, e), NextCounters(s, e))
  }

  /** A new exporter: nothing runs until start is called. */
  function Init(tagIds: map<string, u32>, capacity: nat, batchSize: nat, writer: Store.Writer, clock: u64): State {
    State(tagIds, batchSize, Ring.Init(capacity), Gate(Free, Idle, false, false, false), Worker(Done, false, []),
          Sink(writer, clock, [], [], 0, 0), Counters(0, 0, 0, 0))
  }

  // ---------------------------------------------------------------------
  // Invariants
  // ---------------------------------------------------------------------

  function Flatten(batches: seq<Batch>): seq<Sample> {
    if batches == [] then [] else batches[0] + Flatten(batches[1..])
  }

  lemma {:induction false} FlattenAppend(batches: seq<Batch>, b: Batch)
    ensures Flatten(batches + [b]) == Flatten(batches) + b
  {
    if batches == [] {
      assert [b][1..] == [] && batches + [b] == [b];
    } else {
      FlattenAppend(batches[1..], b);
      assert (batches + [b])[1..] == batches[1..] + [b];
    }
  }

  /** A sample the ring has released but the consumer has not stored yet. */
  function InHand(s: State): seq<Sample> {
    if s.worker.phase.Popping? && s.ring.consumer.Waiting? && s.ring.consumer.got.Some?
    then [s.ring.consumer.got.value] else []
  }

  ghost predicate OptionsValid(s: State) { 1 <= s.batchSize < MAX_COUNT }

  /** Who may be where. */
  ghost predicate Control(s: State) {
    var g := s.gate;
    var busy := !s.worker.phase.Done?;
    && (g.holder.Pushing? ==> g.accepting)
    && (!g.holder.Pushing? ==> s.ring.producer.Resting?)
    && (!s.worker.phase.Popping? ==> s.ring.consumer.Waiting?)
    && (!g.stopper.Idle? ==> !g.accepting)
    && (g.holder.Starting? ==> g.stopper.Idle?)
    && (g.stopper.Exchanging? ==> g.running)
    && (g.running ==> g.accepting || g.stopper.Exchanging?)
    && (g.accepting ==> g.running)
    && (g.running ==> !g.stopRequested && busy)
    && (g.stopRequested ==> !g.accepting && !g.stopper.Requesting?)
    && (g.stopper.Requesting? ==> busy)
    && (g.stopper.Joining? ==> g.stopRequested)
    && (g.stopper.Closing? || (g.stopper.Idle? && !g.accepting) ==> !busy)
    && (busy && s.worker.stopping ==> g.stopRequested && s.ring.floor == s.ring.tail)
    && (s.worker.phase.CheckingEmpty? ==> s.worker.stopping)
  }

  /** Nothing is lost or reordered between the ring and the sink. */
  ghost predicate Flow(s: State) {
    Flatten(s.sink.handed) + (s.worker.batch + InHand(s)) == s.ring.popped
  }

  ghost predicate Sizes(s: State) {
    && |s.worker.batch| <= s.batchSize
    && (s.worker.phase.Popping? || s.worker.phase.CheckingEmpty? ==> |s.worker.batch| < s.batchSize)
    && forall b <- s.sink.handed :: 1 <= |b| <= s.batchSize
  }

  /** When a stopping consumer believes the queue to be empty, it is. */
  ghost predicate Drained(s: State) {
    var w := s.worker;
    && (w.phase.Popping? && w.stopping && s.ring.consumer == Ring.Waiting(None) ==> s.ring.head == s.ring.tail)
    && ((w.phase.Decide? || w.phase.CheckingEmpty?) && w.stopping && |w.batch| < s.batchSize
        ==> s.ring.head == s.ring.tail)
    && (w.phase.Done? ==> w.batch == [] && s.ring.head == s.ring.tail)
  }

  ghost predicate Counts(s: State) {
    var pushing := s.gate.holder.Pushing?;
    && s.counters.ingested + s.counters.dropped + (if pushing then 1 else 0) == s.counters.calls
    && s.counters.ingested + (if pushing && s.ring.producer.Resting? && s.ring.producer.pushed then 1 else 0)
       == |s.ring.pushed|
    && s.sink.sent + s.sink.failed == |s.sink.handed|
  }

  /** The batches a reader will find: all that were accepted, and of the refused ones those whose
      bytes had all been written. */
  function OnDisk(handed: seq<Batch>, fates: seq<Fate>): seq<Batch>
    requires |handed| == |fates|
  {
    if handed == [] then []
    else
      var n := |handed| - 1;
      OnDisk(handed[..n], fates[..n]) + if fates[n].FailedCut? then [] else [handed[n]]
  }

  function CountSent(fates: seq<Fate>): nat {
    if fates == [] then 0 else CountSent(fates[..|fates| - 1]) + if fates[|fates| - 1].Sent? then 1 else 0
  }

  /** Whatever failed, the segments hold exactly the batches a reader should find. */
  ghost predicate Disk(k: Sink, first: nat) {
    && |k.fates| == |k.handed| && k.sent == CountSent(k.fates)
    && Store.Holds(k.writer, first, OnDisk(k.handed, k.fates))
    && Store.Ordered(k.writer, k.clock)
    && (k.writer.maxTotal == 0 ==> k.writer.deleted == 0)
  }

  ghost predicate Closed(s: State) {
    s.gate.stopper.Idle? && !s.gate.accepting ==> s.sink.writer.open.None?
  }

  ghost predicate Inv(s: State, first: nat) {
    && OptionsValid(s) && Ring.Inv(s.ring) && Control(s) && Flow(s) && Sizes(s) && Drained(s) && Counts(s)
    && Disk(s.sink, first) && Closed(s)
  }

  // ---------------------------------------------------------------------
  // Every step keeps the invariants
  // ---------------------------------------------------------------------

  lemma RingFacts(r: Ring.Ring<Sample>)
    requires Ring.Inv(r)
    ensures |r.slots| == r.capacity > 0 && r.head <= r.tailCached <= r.tail && r.floor <= r.tail
    ensures |r.pushed| == r.tail && r.popped == r.pushed[..r.head]
  {}

  lemma RingPossible(s: State, e: Event)
    requires Ring.Inv(s.ring) && Control(s) && Enabled(s, e)
    ensures var r := RingEvent(s, e); r.Some? ==> Ring.Possible(s.ring, r.value)
  {
    RingFacts(s.ring);
    hide Ring.Inv;
  }

  lemma StepRing(s: State, e: Event)
    requires Ring.Inv(s.ring) && Control(s) && Enabled(s, e)
    ensures Ring.Inv(NextRing(s, e))
  {
    RingPossible(s, e);
    hide Ring.Inv, Control, Enabled, RingEvent, Ring.Enabled;
    if RingEvent(s, e).Some? {
      Ring.StepInv(s.ring, RingEvent(s, e).value);
    }
  }

  /** What one ring operation leaves alone. */
  lemma RingFrame(r: Ring.Ring<Sample>, e: Ring.Event<Sample>)
    requires Ring.Inv(r) && Ring.Possible(r, e)
    ensures var t := Ring.Next(r, e);
            && (!e.PublishTail? ==> t.tail == r.tail && t.pushed == r.pushed)
            && (!e.PublishHead? ==> t.head == r.head && t.popped == r.popped)
            && t.floor == (if e.Synchronise? then e.to else r.floor)
            && (e.BeginPush? || e.ReloadHead? || e.Construct? || e.PublishTail? || e.Synchronise?
                ==> t.consumer == r.consumer)
            && (e.BeginPop? || e.ReloadTail? || e.MoveOut? || e.Destroy? || e.PublishHead? || e.Synchronise?
                ==> t.producer == r.producer)
  {}

  lemma StepFrame(s: State, e: Event)
    requires Ring.Inv(s.ring) && Control(s) && Enabled(s, e)
    ensures var t := NextRing(s, e);
            && (!e.PublishTail? ==> t.tail == s.ring.tail && t.pushed == s.ring.pushed)
            && (!e.PublishHead? ==> t.head == s.ring.head && t.popped == s.ring.popped)
            && t.floor == (if e.ReadStop? && e.observed then s.ring.tail else s.ring.floor)
            && (!ConsumerRingStep(e) && !e.TryPop? ==> t.consumer == s.ring.consumer)
            && (!ProducerRingStep(e) && !e.CheckAccepting? ==> t.producer == s.ring.producer)
  {
    RingPossible(s, e);
    hide Ring.Inv, Control, Ring.Enabled, Ring.Next, Ring.Possible;
    if RingEvent(s, e).Some? {
      RingFrame(s.ring, RingEvent(s, e).value);
    }
  }

  /** Who holds the lock, and how far starting and stopping are. */
  ghost predicate DoorControl(g: Gate, busy: bool) {
    && (g.holder.Pushing? ==> g.accepting)
    && (!g.stopper.Idle? ==> !g.accepting)
    && (g.holder.Starting? ==> g.stopper.Idle?)
    && (g.stopper.Exchanging? ==> g.running)
    && (g.running ==> g.accepting || g.stopper.Exchanging?)
    && (g.accepting ==> g.running)
    && (g.running ==> !g.stopRequested && busy)
    && (g.stopRequested ==> !g.accepting && !g.stopper.Requesting?)
    && (g.stopper.Requesting? ==> busy)
    && (g.stopper.Joining? ==> g.stopRequested)
    && (g.stopper.Closing? || (g.stopper.Idle? && !g.accepting) ==> !busy)
  }

  lemma StepDoor(s: State, e: Event)
    requires Control(s) && Enabled(s, e)
    ensures DoorControl(NextGate(s, e), !NextWorker(s, e).phase.Done?)
  {
    hide Ring.Enabled, Full, MakeSample;
    if ConsumerStep(e) { DoorByConsumer(s, e); }
  }

  lemma DoorByConsumer(s: State, e: Event)
    requires Control(s) && Enabled(s, e) && ConsumerStep(e)
    ensures DoorControl(NextGate(s, e), !NextWorker(s, e).phase.Done?)
  {
    hide Ring.Enabled, Full;
  }

  lemma StepRoles(s: State, e: Event)
    requires Ring.Inv(s.ring) && Control(s) && Enabled(s, e)
    ensures var g, w, r := NextGate(s, e), NextWorker(s, e), NextRing(s, e);
            && (!g.holder.Pushing? ==> r.producer.Resting?)
            && (!w.phase.Popping? ==> r.consumer.Waiting?)
            && (!w.phase.Done? && w.stopping ==> g.stopRequested && r.floor == r.tail)
            && (w.phase.CheckingEmpty? ==> w.stopping)
  {
    StepFrame(s, e);
    if ConsumerStep(e) { RolesByConsumer(s, e); } else { RolesByOthers(s, e); }
    hide Ring.Inv, Control, Enabled, NextGate, NextWorker, NextRing;
  }

  lemma RolesByConsumer(s: State, e: Event)
    requires Ring.Inv(s.ring) && Control(s) && Enabled(s, e) && ConsumerStep(e)
    ensures var g, w, r := NextGate(s, e), NextWorker(s, e), NextRing(s, e);
            && (!g.holder.Pushing? ==> r.producer.Resting?)
            && (!w.phase.Popping? ==> r.consumer.Waiting?)
            && (!w.phase.Done? && w.stopping ==> g.stopRequested && r.floor == r.tail)
            && (w.phase.CheckingEmpty? ==> w.stopping)
  {
    StepFrame(s, e);
    hide Ring.Inv, NextRing, Ring.Enabled;
  }

  lemma RolesByOthers(s: State, e: Event)
    requires Ring.Inv(s.ring) && Control(s) && Enabled(s, e) && !ConsumerStep(e)
    ensures var g, w, r := NextGate(s, e), NextWorker(s, e), NextRing(s, e);
            && (!g.holder.Pushing? ==> r.producer.Resting?)
            && (!w.phase.Popping? ==> r.consumer.Waiting?)
            && (!w.phase.Done? && w.stopping ==> g.stopRequested && r.floor == r.tail)
            && (w.phase.CheckingEmpty? ==> w.stopping)
  {
    StepFrame(s, e);
    hide Ring.Inv, NextRing, Ring.Enabled, Full, MakeSample;
  }

  lemma StepControl(s: State, e: Event)
    requires Ring.Inv(s.ring) && Control(s) && Enabled(s, e)
    ensures Control(Next(s, e))
  {
    StepDoor(s, e);
    StepRoles(s, e);
    hide Ring.Inv, Enabled, NextGate, NextWorker, NextRing, NextSink, NextCounters;
  }

  /** How the ring's own steps show in the consumer's hand and in the popped history. */
  lemma PopFrame(s: State, e: Event)
    requires Ring.Inv(s.ring) && Control(s) && Enabled(s, e) && (ConsumerRingStep(e) || e.TryPop?)
    ensures var t := NextRing(s, e);
            && (e.TryPop? && !Full(s) ==> !t.consumer.Waiting?)
            && (e.ReloadTail? ==> t.consumer == (if s.ring.head == e.seen then Ring.Waiting(None) else Ring.Taking))
            && (e.MoveOut? || e.Destroy? ==> !t.consumer.Waiting?)
            && (e.PublishHead? ==> t.consumer == Ring.Waiting(Some(s.ring.consumer.out)))
            && (e.PublishHead? ==> t.popped == s.ring.popped + [s.ring.consumer.out])
  {
    hide Ring.Inv, Control;
    RingPossible(s, e);
    Ring.InvSafe(s.ring);
    RingFacts(s.ring);
  }

  lemma FlowByProducers(s: State, e: Event)
    requires Ring.Inv(s.ring) && Control(s) && Flow(s) && Drained(s) && Enabled(s, e) && !ConsumerStep(e)
    ensures Flow(Next(s, e))
  {
    StepFrame(s, e);
    hide Ring.Inv, NextRing, NextCounters, Ring.Enabled, Flatten, Store.Finish;
  }

  /** While the ring works the consumer holds nothing; a published head hands it one sample. */
  lemma RingHand(s: State, e: Event)
    requires Ring.Inv(s.ring) && Control(s) && Enabled(s, e) && ConsumerRingStep(e)
    ensures InHand(s) == [] && NextWorker(s, e) == s.worker && NextSink(s, e) == s.sink
    ensures e.PublishHead? ==> s.ring.consumer.Destroyed?
    ensures InHand(Next(s, e)) == if e.PublishHead? then [s.ring.consumer.out] else []
    ensures NextRing(s, e).popped == if e.PublishHead? then s.ring.popped + [s.ring.consumer.out] else s.ring.popped
  {
    hide Ring.Inv, Control, NextRing, NextCounters, NextGate;
    StepFrame(s, e);
    PopFrame(s, e);
    PoppingWorker(s, e);
  }

  lemma FlowByRing(s: State, e: Event)
    requires Ring.Inv(s.ring) && Control(s) && Flow(s) && Enabled(s, e) && ConsumerRingStep(e)
    ensures Flow(Next(s, e))
  {
    hide Ring.Inv, Control, Enabled, InHand, NextRing, NextCounters, NextGate, NextWorker, NextSink, Flatten;
    RingHand(s, e);
    if e.PublishHead? {
      NothingBefore(s.worker.batch);
      Regroup(Flatten(s.sink.handed), s.worker.batch, [s.ring.consumer.out]);
    }
  }

  lemma LoopWorker(s: State, e: Event)
    requires Enabled(s, e) && (e.ReadStop? || e.TryPop? || e.PopReturns?)
    ensures var w, v, got := s.worker, NextWorker(s, e), s.ring.consumer;
            && NextSink(s, e) == s.sink && (w.phase.Popping? <==> e.PopReturns?)
            && (v.phase.Popping? <==> e.TryPop? && !Full(s))
            && (e.PopReturns? ==> got.Waiting?)
            && v.batch == if e.PopReturns? && got.got.Some? then w.batch + [got.got.value] else w.batch
  {
    hide Send, Store.Finish, Ring.Enabled, Ring.Next, MakeSample;
  }

  lemma FlowByLoop(s: State, e: Event)
    requires Ring.Inv(s.ring) && Control(s) && Flow(s) && Enabled(s, e)
    requires e.ReadStop? || e.TryPop? || e.PopReturns?
    ensures Flow(Next(s, e))
  {
    StepFrame(s, e);
    if e.TryPop? { PopFrame(s, e); }
    LoopWorker(s, e);
    hide Ring.Inv, Control, Enabled, NextRing, NextCounters, NextGate, NextWorker, NextSink, Flatten, Full;
    assert s.worker.batch + [] == s.worker.batch;
    assert NextWorker(s, e).batch + [] == NextWorker(s, e).batch;
  }

  lemma FlowByPop(s: State, e: Event)
    requires Ring.Inv(s.ring) && Control(s) && Flow(s) && Enabled(s, e)
    requires ConsumerStep(e) && !e.Flush? && !e.CheckEmpty?
    ensures Flow(Next(s, e))
  {
    hide Ring.Inv, Control, Flow, Enabled, Next;
    if ConsumerRingStep(e) { FlowByRing(s, e); } else { FlowByLoop(s, e); }
  }

  lemma FlowBySend(s: State, e: Event)
    requires OptionsValid(s) && Ring.Inv(s.ring) && Control(s) && Flow(s) && Sizes(s) && Enabled(s, e)
    requires e.Flush? || e.CheckEmpty?
    ensures Flow(Next(s, e))
  {
    StepFrame(s, e);
    SinkFrame(s, e);
    WorkerAfterSend(s, e);
    hide Ring.Inv, Control, NextRing, NextSink, NextCounters, NextGate, NextWorker, Enabled, Flatten;
    if Sends(s, e) {
      FlattenAppend(s.sink.handed, s.worker.batch);
      assert s.worker.batch + [] == s.worker.batch;
    }
  }

  lemma WorkerAfterSend(s: State, e: Event)
    requires Enabled(s, e) && (e.Flush? || e.CheckEmpty?)
    ensures !s.worker.phase.Popping? && !NextWorker(s, e).phase.Popping?
    ensures NextWorker(s, e).batch == if Sends(s, e) then [] else s.worker.batch
    ensures Sends(s, e) && 1 <= s.batchSize ==> s.worker.batch != []
    ensures NextWorker(s, e).phase.CheckingEmpty? ==> !Full(s)
  {}

  lemma StepSizes(s: State, e: Event)
    requires OptionsValid(s) && Sizes(s) && Enabled(s, e)
    ensures Sizes(Next(s, e))
  {
    SinkFrame(s, e);
    if e.Flush? || e.CheckEmpty? {
      WorkerAfterSend(s, e);
    } else {
      WorkerSizes(s, e);
    }
    hide NextRing, NextSink, NextCounters, NextGate, NextWorker, Enabled;
  }

  lemma WorkerSizes(s: State, e: Event)
    requires Sizes(s) && Enabled(s, e) && !e.Flush? && !e.CheckEmpty?
    ensures |NextWorker(s, e).batch| <= s.batchSize && !Sends(s, e)
    ensures NextWorker(s, e).phase.Popping? || NextWorker(s, e).phase.CheckingEmpty?
            ==> |NextWorker(s, e).batch| < s.batchSize
  {}

  lemma SinkFrame(s: State, e: Event)
    requires OptionsValid(s) && |s.worker.batch| <= s.batchSize && Enabled(s, e)
    ensures NextSink(s, e).handed == if Sends(s, e) then s.sink.handed + [s.worker.batch] else s.sink.handed
    ensures NextSink(s, e).sent + NextSink(s, e).failed
         == s.sink.sent + s.sink.failed + if Sends(s, e) then 1 else 0
  {
    hide Store.WriteBatch, Store.Accepted, BatchBytes, Store.Finish;
  }

  lemma DrainedByProducers(s: State, e: Event)
    requires Ring.Inv(s.ring) && Control(s) && Drained(s) && Enabled(s, e) && !ConsumerStep(e)
    ensures Drained(Next(s, e))
  {
    StepFrame(s, e);
    hide Ring.Inv, NextRing, NextSink, NextCounters, Ring.Next, Ring.Enabled;
  }

  lemma DrainedByRing(s: State, e: Event)
    requires Ring.Inv(s.ring) && Control(s) && Sizes(s) && Drained(s) && Enabled(s, e) && ConsumerRingStep(e)
    ensures Drained(Next(s, e))
  {
    StepFrame(s, e);
    RingFacts(s.ring);
    PopFrame(s, e);
    hide Ring.Inv, NextRing, NextSink, NextCounters, NextGate, Ring.Next;
  }

  lemma DrainedByLoop(s: State, e: Event)
    requires Ring.Inv(s.ring) && Control(s) && Sizes(s) && Drained(s) && Enabled(s, e)
    requires e.ReadStop? || e.TryPop? || e.PopReturns?
    ensures Drained(Next(s, e))
  {
    StepFrame(s, e);
    RingFacts(s.ring);
    if e.TryPop? { PopFrame(s, e); }
    hide Ring.Inv, NextRing, NextSink, NextCounters, NextGate, Ring.Next;
  }

  lemma DrainedByFlush(s: State, e: Event)
    requires Ring.Inv(s.ring) && Control(s) && Sizes(s) && Drained(s) && Enabled(s, e) && (e.Flush? || e.CheckEmpty?)
    ensures Drained(Next(s, e))
  {
    StepFrame(s, e);
    RingFacts(s.ring);
    hide Ring.Inv, NextRing, NextSink, NextCounters, NextGate, Ring.Next;
  }

  lemma DrainedByConsumer(s: State, e: Event)
    requires Ring.Inv(s.ring) && Control(s) && Sizes(s) && Drained(s) && Enabled(s, e) && ConsumerStep(e)
    ensures Drained(Next(s, e))
  {
    hide Ring.Inv, Control, Sizes, Drained, Enabled, Next;
    if ConsumerRingStep(e) { DrainedByRing(s, e); }
    else if e.Flush? || e.CheckEmpty? { DrainedByFlush(s, e); }
    else { DrainedByLoop(s, e); }
  }

  lemma ProducerFrame(s: State, e: Event)
    requires Ring.Inv(s.ring) && Control(s) && Enabled(s, e)
    ensures var t := NextRing(s, e);
            && (e.CheckAccepting? && s.gate.accepting ==> !t.producer.Resting?)
            && (e.ReloadHead? ==> !t.producer.Resting? || !t.producer.pushed)
            && (e.Construct? ==> !t.producer.Resting?)
            && (e.PublishTail? ==> t.producer == Ring.Resting(true) && |t.pushed| == |s.ring.pushed| + 1)
  {
    RingPossible(s, e);
    hide Ring.Inv;
  }

  lemma StepCounts(s: State, e: Event)
    requires Ring.Inv(s.ring) && Control(s) && Sizes(s) && Counts(s) && OptionsValid(s) && Enabled(s, e)
    requires ProducerRingStep(e) ==> !s.ring.producer.Resting?
    ensures Counts(Next(s, e))
  {
    StepFrame(s, e);
    ProducerFrame(s, e);
    SinkFrame(s, e);
    hide Ring.Inv, NextRing, NextSink, NextWorker, Flatten, Sends;
  }

  lemma ProducerBusy(s: State, e: Event)
    requires Enabled(s, e) && ProducerRingStep(e)
    ensures !s.ring.producer.Resting?
  {}

  lemma FatesPush(handed: seq<Batch>, fates: seq<Fate>, b: Batch, f: Fate)
    requires |handed| == |fates|
    ensures OnDisk(handed + [b], fates + [f]) == OnDisk(handed, fates) + if f.FailedCut? then [] else [b]
    ensures CountSent(fates + [f]) == CountSent(fates) + if f.Sent? then 1 else 0
  {
    assert (handed + [b])[..|handed|] == handed && (fates + [f])[..|fates|] == fates;
  }

  lemma {:induction false} SentAtMost(fates: seq<Fate>)
    ensures CountSent(fates) <= |fates|
  {
    if fates != [] { SentAtMost(fates[..|fates| - 1]); }
  }

  /** When every batch was sent, everything handed over is on disk. */
  lemma {:induction false} AllSent(handed: seq<Batch>, fates: seq<Fate>)
    requires |handed| == |fates| == CountSent(fates)
    ensures OnDisk(handed, fates) == handed
  {
    if handed != [] {
      var n := |handed| - 1;
      SentAtMost(fates[..n]);
      AllSent(handed[..n], fates[..n]);
    }
  }

  lemma SendDisk(k: Sink, first: nat, batch: Batch, now: u64, io: Store.Io)
    requires Disk(k, first) && k.clock <= now
    ensures Disk(Send(k, batch, now, io), first)
  {
    var bytes := BatchBytes(batch);
    hide BatchBytes, Store.WriteBatch, Store.Holds, Store.Ordered, Store.Accepted, Store.Stores, OnDisk, CountSent;
    Store.StepOrdered(k.writer, k.clock, Store.Write(bytes, now, io));
    Store.SettingsKept(k.writer, Store.Write(bytes, now, io));
    NothingDeleted(k.writer, bytes, now, io);
    Store.StepHolds(k.writer, first, OnDisk(k.handed, k.fates), Store.Put(batch, now, io));
    FatesPush(k.handed, k.fates, batch, FateOf(k.writer, bytes, io));
    AcceptedIsStored(k.writer, bytes, io);
  }

  lemma AcceptedIsStored(w: Store.Writer, bytes: seq<byte>, io: Store.Io)
    ensures Store.Accepted(w, bytes, io) ==> Store.Stores(w, bytes, io)
  {}

  lemma NothingDeleted(w: Store.Writer, bytes: seq<byte>, now: u64, io: Store.Io)
    ensures w.maxTotal == 0 ==> Store.WriteBatch(w, bytes, now, io).deleted == w.deleted
  {
    hide Store.FreeSequence, Store.DropOldest, Store.Insert;
  }

  lemma StepDisk(s: State, e: Event, first: nat)
    requires Disk(s.sink, first) && Enabled(s, e)
    ensures Disk(NextSink(s, e), first)
  {
    hide Store.Holds, Store.Ordered, Send, Store.Finish, OnDisk, CountSent;
    if Sends(s, e) && |s.worker.batch| < MAX_COUNT {
      SendDisk(s.sink, first, s.worker.batch, e.now, e.io);
    } else if e.StopClose? {
      Store.FinishOrdered(s.sink.writer, s.sink.clock);
      FinishKeeps(s.sink.writer);
      Store.FinishHolds(s.sink.writer, first, OnDisk(s.sink.handed, s.sink.fates));
    }
  }

  lemma FinishKeeps(w: Store.Writer)
    ensures Store.Finish(w).deleted == w.deleted && Store.Finish(w).maxTotal == w.maxTotal
    ensures Store.Finish(w).open.None? && Store.Finish(w).table == w.table
  {}

  lemma StepClosed(s: State, e: Event)
    requires Control(s) && Closed(s) && Enabled(s, e)
    ensures Closed(Next(s, e))
  {
    FinishKeeps(s.sink.writer);
    hide NextRing, NextCounters, Store.WriteBatch, BatchBytes, Store.Accepted, Store.Finish;
  }

  lemma StepInv(s: State, e: Event, first: nat)
    requires Inv(s, first) && Enabled(s, e)
    ensures Inv(Next(s, e), first)
  {
    hide Ring.Inv, Control, Flow, Sizes, Drained, Counts, Disk, Closed, Enabled,
      NextRing, NextGate, NextWorker, NextSink, NextCounters;
    StepRing(s, e);
    StepControl(s, e);
    StepSizes(s, e);
    if !ConsumerStep(e) { FlowByProducers(s, e); }
    else if e.Flush? || e.CheckEmpty? { FlowBySend(s, e); }
    else { FlowByPop(s, e); }
    if ConsumerStep(e) { DrainedByConsumer(s, e); } else { DrainedByProducers(s, e); }
    if ProducerRingStep(e) { ProducerBusy(s, e); }
    StepCounts(s, e);
    StepDisk(s, e, first);
    StepClosed(s, e);
  }

  // ---------------------------------------------------------------------
  // Whole runs
  // ---------------------------------------------------------------------

  predicate Execution(s: State, events: seq<Event>)
    decreases |events|
  {
    events == [] || (Enabled(s, events[0]) && Execution(Next(s, events[0]), events[1..]))
  }

  function After(s: State, events: seq<Event>): State
    requires Execution(s, events)
    decreases |events|
  {
    if events == [] then s else After(Next(s, events[0]), events[1..])
  }

  lemma {:induction false} RunInv(s: State, events: seq<Event>, first: nat)
    requires Inv(s, first) && Execution(s, events)
    ensures Inv(After(s, events), first)
    decreases |events|
  {
    hide Inv, Enabled, Next;
    if events != [] {
      StepInv(s, events[0], first);
      RunInv(Next(s, events[0]), events[1..], first);
    }
  }

  /** A writer as its constructor leaves it, on segments older than the clock. */
  ghost predicate FreshWriter(w: Store.Writer, clock: u64) {
    && w.open.None? && Store.Consistent(w) && Store.Ordered(w, clock)
    && (w.maxTotal == 0 ==> w.deleted == 0)
  }

  /** The writer a constructor makes on older segments is one to start from. */
  lemma StartIsFresh(maxSegment: nat, maxTotal: nat, table: SegmentFile.Table, existing: seq<Store.File>, clock: u64)
    requires Store.Chronological(existing) && forall f <- existing :: f.name.createdMs < clock
    ensures FreshWriter(Store.Start(maxSegment, maxTotal, table, existing), clock)
    ensures |Store.Start(maxSegment, maxTotal, table, existing).log| == |existing|
  {
    Store.StartOrdered(maxSegment, maxTotal, table, existing, clock);
    hide Store.DropOldest, Store.Ordered;
  }

  lemma InitInv(tagIds: map<string, u32>, capacity: nat, batchSize: nat, writer: Store.Writer, clock: u64)
    requires 1 <= batchSize < MAX_COUNT && capacity > 0 && FreshWriter(writer, clock)
    ensures Inv(Init(tagIds, capacity, batchSize, writer, clock), |writer.log|)
  {
    Ring.InitInv<Sample>(capacity);
    Store.StartHolds(writer, |writer.log|);
    hide Ring.Inv, Store.Holds, Store.Ordered;
  }

  // ---------------------------------------------------------------------
  // What was submitted
  // ---------------------------------------------------------------------

  datatype Submission = Submission(sensor: string, value: u64, ms: int)

  /** The sample says what was submitted, field by field. */
  predicate Records(tagIds: map<string, u32>, x: Sample, what: Submission) {
    && what.sensor in tagIds && x.tagId == tagIds[what.sensor]
    && x.value == what.value
    && (what.ms >= 0 ==> x.timestampMs == what.ms) && (what.ms < 0 ==> x.timestampMs == 0)
    && x.quality == 0 && x.reserved0 == 0 && x.reserved1 == 0 && x.reserved2 == 0
  }

  ghost predicate RecordsAll(tagIds: map<string, u32>, xs: seq<Sample>, whats: seq<Submission>) {
    |xs| == |whats| && forall k | 0 <= k < |xs| :: Records(tagIds, xs[k], whats[k])
  }

  /** The submissions that went into the queue, from the calls and the publications alone: a
      publication is that of the last call for a known sensor, which holds the lock until then. */
  function Admitted(tagIds: map<string, u32>, last: Option<Submission>, events: seq<Event>): seq<Submission>
    decreases |events|
  {
    if events == [] then []
    else
      match events[0]
      case Submit(sensor, value, ms) =>
        Admitted(tagIds, if sensor in tagIds then Some(Submission(sensor, value, ms)) else last, events[1..])
      case PublishTail => (if last.Some? then [last.value] else []) + Admitted(tagIds, last, events[1..])
      case _ => Admitted(tagIds, last, events[1..])
  }

  /** Calls for sensors without a tag. */
  function Strangers(tagIds: map<string, u32>, events: seq<Event>): nat {
    if events == [] then 0
    else (if events[0].Submit? && events[0].sensor !in tagIds then 1 else 0) + Strangers(tagIds, events[1..])
  }

  /** Whoever has the lock carries what the last call submitted. */
  predicate Carried(s: State, last: Option<Submission>) {
    var h := s.gate.holder;
    && (h.Checking? || h.Pushing? ==> last.Some? && Records(s.tagIds, h.sample, last.value))
    && (!s.ring.producer.Resting? ==> h.Pushing? && s.ring.producer.item == h.sample)
  }

  function LastCall(tagIds: map<string, u32>, last: Option<Submission>, e: Event): Option<Submission> {
    if e.Submit? && e.sensor in tagIds then Some(Submission(e.sensor, e.value, e.ms)) else last
  }

  lemma PushFrame(s: State, e: Event)
    requires Ring.Inv(s.ring) && Control(s) && Enabled(s, e)
    ensures var p, q := s.ring.producer, NextRing(s, e).producer;
            && (e.CheckAccepting? && s.gate.accepting ==> !q.Resting? && q.item == s.gate.holder.sample)
            && (e.CheckAccepting? && !s.gate.accepting ==> q == p)
            && (ProducerRingStep(e) && !q.Resting? ==> !p.Resting? && q.item == p.item)
            && (e.PublishTail? ==> !p.Resting? && q.Resting?)
    ensures NextRing(s, e).pushed == if e.PublishTail? then s.ring.pushed + [s.ring.producer.item] else s.ring.pushed
  {
    hide Ring.Inv, Control;
    RingPossible(s, e);
  }

  lemma StepCarried(s: State, e: Event, last: Option<Submission>)
    requires Ring.Inv(s.ring) && Control(s) && Enabled(s, e) && Carried(s, last)
    ensures Carried(Next(s, e), LastCall(s.tagIds, last, e))
    ensures Next(s, e).ring.pushed == if e.PublishTail? then s.ring.pushed + [s.gate.holder.sample] else s.ring.pushed
    ensures e.PublishTail? ==> last.Some? && Records(s.tagIds, s.gate.holder.sample, last.value)
  {
    hide Ring.Inv, NextRing, NextWorker, NextSink, NextCounters, Ring.Enabled, Records, MakeSample;
    StepFrame(s, e);
    PushFrame(s, e);
    if e.Submit? && e.sensor in s.tagIds {
      SampleRecords(s.tagIds, e.sensor, e.value, e.ms);
    }
  }

  lemma SampleRecords(tagIds: map<string, u32>, sensor: string, value: u64, ms: int)
    requires sensor in tagIds && ms < 0x1_0000_0000_0000_0000
    ensures Records(tagIds, MakeSample(tagIds[sensor], value, ms), Submission(sensor, value, ms))
  {}

  /** What went into the queue is what the admitted calls submitted, in their order. */
  lemma {:induction false} PushedIsSubmitted(s: State, events: seq<Event>, last: Option<Submission>, first: nat)
    requires Inv(s, first) && Execution(s, events) && Carried(s, last)
    ensures s.ring.pushed <= After(s, events).ring.pushed
    ensures RecordsAll(s.tagIds, After(s, events).ring.pushed[|s.ring.pushed|..], Admitted(s.tagIds, last, events))
    decreases |events|
  {
    hide Ring.Inv, Control, Flow, Sizes, Drained, Counts, Disk, Closed, Enabled, Carried, Records,
      NextRing, NextGate, NextWorker, NextSink, NextCounters;
    if events != [] {
      var e, t, end := events[0], Next(s, events[0]), After(s, events).ring.pushed;
      StepInv(s, e, first);
      StepCarried(s, e, last);
      PushedIsSubmitted(t, events[1..], LastCall(s.tagIds, last, e), first);
      if e.PublishTail? {
        assert end[|s.ring.pushed|..] == [end[|s.ring.pushed|]] + end[|t.ring.pushed|..];
      }
    }
  }

  lemma {:induction false} StrangersCounted(s: State, events: seq<Event>)
    requires Execution(s, events)
    ensures After(s, events).counters.unknown == s.counters.unknown + Strangers(s.tagIds, events)
    decreases |events|
  {
    hide NextRing, NextGate, NextWorker, NextSink;
    if events != [] {
      StrangersCounted(Next(s, events[0]), events[1..]);
    }
  }

  lemma OneStep(s: State, e: Event, rest: seq<Event>)
    requires Enabled(s, e) && Execution(Next(s, e), rest)
    ensures Execution(s, [e] + rest) && After(s, [e] + rest) == After(Next(s, e), rest)
  {
    hide Enabled, Next;
    assert ([e] + rest)[1..] == rest;
  }

  lemma NoSteps(s: State)
    ensures Execution(s, []) && After(s, []) == s
  {}

  /** The steps of a call that nobody interrupts and that sees the current head. */
  function CallSteps(s: State, call: Event): seq<Event> {
    var full := s.ring.tail - s.ring.head >= s.ring.capacity;
    if !s.gate.accepting then [call] + [CheckAccepting]
    else if full then [call] + ([CheckAccepting] + ([ReloadHead(s.ring.head)] + [SubmitReturns]))
    else if s.ring.tail - s.ring.headCached >= s.ring.capacity then
      [call] + ([CheckAccepting] + ([ReloadHead(s.ring.head)] + PushSteps()))
    else [call] + ([CheckAccepting] + PushSteps())
  }

  function PushSteps(): seq<Event> { [Construct] + ([PublishTail] + [SubmitReturns]) }

  /** Such a call admits its reading exactly when the exporter accepts and the queue is not full;
      one turned away by a full queue is counted as dropped. */
  lemma CallAdmitsUnlessFull(s: State, sensor: string, value: u64, ms: int, first: nat)
    requires Inv(s, first) && s.gate.holder.Free? && sensor in s.tagIds && ms < 0x1_0000_0000_0000_0000
    ensures var steps := CallSteps(s, Submit(sensor, value, ms));
            var room := |Ring.Queued(s.ring)| < s.ring.capacity;
            && Execution(s, steps)
            && var t := After(s, steps);
               && t.gate == s.gate && t.worker == s.worker && t.sink == s.sink
               && |t.ring.pushed| == |s.ring.pushed| + (if s.gate.accepting && room then 1 else 0)
               && t.counters.ingested == s.counters.ingested + (if s.gate.accepting && room then 1 else 0)
               && t.counters.dropped == s.counters.dropped + (if s.gate.accepting && !room then 1 else 0)
               && (s.gate.accepting && room ==>
                     Records(s.tagIds, t.ring.pushed[|s.ring.pushed|], Submission(sensor, value, ms)))
  {
    hide Flow, Sizes, Drained, Counts, Disk, Closed, Records, MakeSample, Execution, After, Enabled, Next, Ring.Inv;
    SampleRecords(s.tagIds, sensor, value, ms);
    RingBounds(s.ring);
    var call, x := Submit(sensor, value, ms), MakeSample(s.tagIds[sensor], value, ms);
    CallEnters(s, call, x);
    var a := Next(s, call);
    var b := Next(a, CheckAccepting);
    if !s.gate.accepting {
      NoSteps(b);
      OneStep(a, CheckAccepting, []);
      assert [CheckAccepting] + [] == [CheckAccepting];
      OneStep(s, call, [CheckAccepting]);
    } else if s.ring.tail - s.ring.headCached >= s.ring.capacity {
      var rest := if s.ring.tail - s.ring.head >= s.ring.capacity then [SubmitReturns] else PushSteps();
      HeadReread(b, x);
      OneStep(a, CheckAccepting, [ReloadHead(s.ring.head)] + rest);
      OneStep(s, call, [CheckAccepting] + ([ReloadHead(s.ring.head)] + rest));
    } else {
      PushRuns(b);
      OneStep(a, CheckAccepting, PushSteps());
      OneStep(s, call, [CheckAccepting] + PushSteps());
    }
  }

  /** The call takes the lock and looks at the door; inside it starts to push. */
  lemma CallEnters(s: State, call: Event, x: Sample)
    requires Control(s) && s.gate.holder.Free? && |s.ring.slots| == s.ring.capacity > 0
    requires call.Submit? && call.sensor in s.tagIds && call.ms < 0x1_0000_0000_0000_0000
    requires x == MakeSample(s.tagIds[call.sensor], call.value, call.ms)
    ensures Enabled(s, call) && Enabled(Next(s, call), CheckAccepting)
    ensures Next(Next(s, call), CheckAccepting)
         == if !s.gate.accepting then s
            else s.(gate := s.gate.(holder := Pushing(x)), counters := s.counters.(calls := s.counters.calls + 1),
                    ring := s.ring.(producer := if s.ring.tail - s.ring.headCached >= s.ring.capacity
                                                then Ring.Reloading(x) else Ring.Ready(x)))
  {
    hide MakeSample;
  }

  /** A push that looked full reads the head again. */
  lemma HeadReread(b: State, x: Sample)
    requires b.gate.holder.Pushing? && b.ring.producer == Ring.Reloading(x)
    requires |b.ring.slots| == b.ring.capacity > 0 && b.ring.headCached <= b.ring.head <= b.ring.tail
    ensures var full := b.ring.tail - b.ring.head >= b.ring.capacity;
            var steps := [ReloadHead(b.ring.head)] + (if full then [SubmitReturns] else PushSteps());
            && Execution(b, steps)
            && var t := After(b, steps);
               && t.gate == b.gate.(holder := Free) && t.worker == b.worker && t.sink == b.sink
               && t.ring.pushed == (if full then b.ring.pushed else b.ring.pushed + [x])
               && t.counters == if full then b.counters.(dropped := b.counters.dropped + 1)
                                else b.counters.(ingested := b.counters.ingested + 1)
  {
    hide Execution, After;
    var c := Next(b, ReloadHead(b.ring.head));
    if b.ring.tail - b.ring.head >= b.ring.capacity {
      NoSteps(Next(c, SubmitReturns));
      OneStep(c, SubmitReturns, []);
      assert [SubmitReturns] + [] == [SubmitReturns];
      OneStep(b, ReloadHead(b.ring.head), [SubmitReturns]);
    } else {
      PushRuns(c);
      OneStep(b, ReloadHead(b.ring.head), PushSteps());
    }
  }

  lemma RingBounds(r: Ring.Ring<Sample>)
    requires Ring.Inv(r)
    ensures r.headCached <= r.head <= r.tail && |r.pushed| == r.tail && |r.slots| == r.capacity > 0
    ensures |Ring.Queued(r)| == r.tail - r.head
  {}

  lemma PushRuns(s: State)
    requires |s.ring.slots| == s.ring.capacity > 0 && s.gate.holder.Pushing? && s.ring.producer.Ready?
    ensures Execution(s, PushSteps())
    ensures var t := After(s, PushSteps());
            && t.gate == s.gate.(holder := Free) && t.worker == s.worker && t.sink == s.sink && t.tagIds == s.tagIds
            && t.ring.pushed == s.ring.pushed + [s.ring.producer.item]
            && t.counters == s.counters.(ingested := s.counters.ingested + 1)
  {
    hide Execution, After, Next, Enabled;
    PushThrough(s);
    var a := Next(s, Construct);
    var b := Next(a, PublishTail);
    NoSteps(Next(b, SubmitReturns));
    OneStep(b, SubmitReturns, []);
    assert [SubmitReturns] + [] == [SubmitReturns];
    OneStep(a, PublishTail, [SubmitReturns]);
    OneStep(s, Construct, [PublishTail] + [SubmitReturns]);
  }

  lemma PushThrough(s: State)
    requires |s.ring.slots| == s.ring.capacity > 0 && s.gate.holder.Pushing? && s.ring.producer.Ready?
    ensures var a := Next(s, Construct);
            Enabled(s, Construct) && Enabled(a, PublishTail) && Enabled(Next(a, PublishTail), SubmitReturns)
    ensures var t := Next(Next(Next(s, Construct), PublishTail), SubmitReturns);
            && t.gate == s.gate.(holder := Free) && t.worker == s.worker && t.sink == s.sink && t.tagIds == s.tagIds
            && t.ring.pushed == s.ring.pushed + [s.ring.producer.item]
            && t.counters == s.counters.(ingested := s.counters.ingested + 1)
  {
    hide Next, Enabled;
    Constructs(s);
    Publishes(Next(s, Construct));
    CallReturns(Next(Next(s, Construct), PublishTail));
  }

  lemma Constructs(s: State)
    requires |s.ring.slots| == s.ring.capacity > 0 && s.gate.holder.Pushing? && s.ring.producer.Ready?
    ensures var r, t := s.ring, Next(s, Construct).ring;
            && Enabled(s, Construct) && Next(s, Construct) == s.(ring := t)
            && t.producer == Ring.Built(r.producer.item) && t.pushed == r.pushed && |t.slots| == t.capacity > 0
  {
    hide Ring.Index;
  }

  lemma Publishes(s: State)
    requires |s.ring.slots| == s.ring.capacity > 0 && s.gate.holder.Pushing? && s.ring.producer.Built?
    ensures var r, t := s.ring, Next(s, PublishTail).ring;
            && Enabled(s, PublishTail) && Next(s, PublishTail) == s.(ring := t)
            && t.producer == Ring.Resting(true) && t.pushed == r.pushed + [r.producer.item]
  {}

  lemma CallReturns(s: State)
    requires s.gate.holder.Pushing? && s.ring.producer == Ring.Resting(true)
    ensures Enabled(s, SubmitReturns)
    ensures Next(s, SubmitReturns)
         == s.(gate := s.gate.(holder := Free), counters := s.counters.(ingested := s.counters.ingested + 1))
  {}

  /** A start call opens the door of an exporter at rest and sets its consumer going. */
  lemma StartOpens(s: State, first: nat)
    requires Inv(s, first) && Stopped(s) && s.gate.holder.Free?
    ensures Enabled(s, StartCall) && Enabled(Next(s, StartCall), StartBody)
    ensures var t := Next(Next(s, StartCall), StartBody);
            && t.gate.accepting && !t.gate.stopRequested && t.gate.holder.Free?
            && t.worker == Worker(Top, false, []) && t.ring == s.ring && t.sink == s.sink
  {
    hide Ring.Inv, Flow, Sizes, Drained, Counts, Disk, Closed;
  }

  /** The stop call that closed the door has returned (or start was never called). Another stop
      call made meanwhile finds the door closed and returns at once. */
  predicate Stopped(s: State) { s.gate.stopper.Idle? && !s.gate.accepting }

  /** What every interleaving keeps: every admitted reading, as submitted, is in exactly one place,
      in the order the producer lock admitted it; counters add up; batches have a legal size. */
  lemma Conservation(tagIds: map<string, u32>, capacity: nat, batchSize: nat, writer: Store.Writer,
                     clock: u64, events: seq<Event>)
    requires 1 <= batchSize < MAX_COUNT && capacity > 0 && FreshWriter(writer, clock)
    requires Execution(Init(tagIds, capacity, batchSize, writer, clock), events)
    ensures var s := After(Init(tagIds, capacity, batchSize, writer, clock), events);
            && Flatten(s.sink.handed) + (s.worker.batch + InHand(s)) + Ring.Queued(s.ring) == s.ring.pushed
            && RecordsAll(tagIds, s.ring.pushed, Admitted(tagIds, None, events))
            && s.counters.unknown == Strangers(tagIds, events)
            && (forall b <- s.sink.handed :: 1 <= |b| <= s.batchSize)
            && s.sink.sent + s.sink.failed == |s.sink.handed|
            && (!s.gate.holder.Pushing? ==> s.counters.ingested == |s.ring.pushed|)
            && (!s.gate.holder.Pushing? ==> s.counters.ingested + s.counters.dropped == s.counters.calls)
  {
    hide Execution, After, Ring.Inv, Control, Drained, Disk, Closed, Flatten, RecordsAll, Admitted;
    InitInv(tagIds, capacity, batchSize, writer, clock);
    RunInv(Init(tagIds, capacity, batchSize, writer, clock), events, |writer.log|);
    QueueRecords(tagIds, capacity, batchSize, writer, clock, events);
    StrangersCounted(Init(tagIds, capacity, batchSize, writer, clock), events);
    var s := After(Init(tagIds, capacity, batchSize, writer, clock), events);
    RingFacts(s.ring);
    assert s.ring.pushed == s.ring.pushed[..s.ring.head] + s.ring.pushed[s.ring.head..];
  }

  lemma QueueRecords(tagIds: map<string, u32>, capacity: nat, batchSize: nat, writer: Store.Writer,
                     clock: u64, events: seq<Event>)
    requires 1 <= batchSize < MAX_COUNT && capacity > 0 && FreshWriter(writer, clock)
    requires Execution(Init(tagIds, capacity, batchSize, writer, clock), events)
    ensures RecordsAll(tagIds, After(Init(tagIds, capacity, batchSize, writer, clock), events).ring.pushed,
                       Admitted(tagIds, None, events))
  {
    hide Execution, After, RecordsAll, Admitted, Inv;
    var s := Init(tagIds, capacity, batchSize, writer, clock);
    InitInv(tagIds, capacity, batchSize, writer, clock);
    PushedIsSubmitted(s, events, None, |writer.log|);
    var pushed := After(s, events).ring.pushed;
    assert pushed[0..] == pushed;
  }

  lemma {:induction false} RunSettings(s: State, events: seq<Event>)
    requires Execution(s, events)
    ensures After(s, events).sink.writer.table == s.sink.writer.table
    ensures After(s, events).sink.writer.maxTotal == s.sink.writer.maxTotal
    decreases |events|
  {
    hide Enabled, NextRing, NextGate, NextWorker, NextCounters;
    if events != [] {
      StepSettings(s, events[0]);
      RunSettings(Next(s, events[0]), events[1..]);
    }
  }

  lemma StepSettings(s: State, e: Event)
    requires Enabled(s, e)
    ensures NextSink(s, e).writer.table == s.sink.writer.table
    ensures NextSink(s, e).writer.maxTotal == s.sink.writer.maxTotal
  {
    FinishKeeps(s.sink.writer);
    hide Store.WriteBatch, Store.Accepted, BatchBytes, Store.Finish;
    if Sends(s, e) && |s.worker.batch| < MAX_COUNT {
      Store.SettingsKept(s.sink.writer, Store.Write(BatchBytes(s.worker.batch), e.now, e.io));
    }
  }

  /** Once stop has returned, reading the segments of this run that are left, in name order, gives
      the batches handed over except those that failed with part of them missing; only the
      contents of whole leading segments deleted under a size limit are gone. If none failed these
      are the admitted readings, as submitted, each once, in the order the lock admitted them. */
  lemma StoppedMeansExported<T>(tagIds: map<string, u32>, capacity: nat, batchSize: nat, writer: Store.Writer,
                                clock: u64, events: seq<Event>, decodeTags: seq<byte> -> Option<T>)
    requires 1 <= batchSize < MAX_COUNT && capacity > 0 && FreshWriter(writer, clock)
    requires Execution(Init(tagIds, capacity, batchSize, writer, clock), events)
    requires decodeTags(writer.table).Some?
    ensures var s := After(Init(tagIds, capacity, batchSize, writer, clock), events);
            var k, first := s.sink, |writer.log|;
            Stopped(s) ==>
              && Ring.Queued(s.ring) == [] && s.worker.batch == [] && k.writer.open.None?
              && RecordsAll(tagIds, Flatten(k.handed), Admitted(tagIds, None, events)) && |k.fates| == |k.handed|
              && Store.Older(k.writer, first) <= |k.writer.finished|
              && Store.Lost(k.writer, first)
                 + Store.ReadBack(k.writer.finished[Store.Older(k.writer, first)..], decodeTags)
                 == OnDisk(k.handed, k.fates)
              && (k.failed == 0 ==> OnDisk(k.handed, k.fates) == k.handed)
              && (k.writer.deleted <= first ==> Store.Lost(k.writer, first) == [])
              && (writer.maxTotal == 0 ==> k.writer.deleted == 0)
  {
    hide Execution, After, Store.ReadBack, Store.Contents, Store.Intact, Store.Legible, Store.Lost, OnDisk,
      RecordsAll, Admitted;
    var first := |writer.log|;
    InitInv(tagIds, capacity, batchSize, writer, clock);
    RunInv(Init(tagIds, capacity, batchSize, writer, clock), events, first);
    RunSettings(Init(tagIds, capacity, batchSize, writer, clock), events);
    var s := After(Init(tagIds, capacity, batchSize, writer, clock), events);
    QueueRecords(tagIds, capacity, batchSize, writer, clock, events);
    if Stopped(s) {
      StoppedDisk(s, first, decodeTags);
    }
  }

  lemma StoppedDisk<T>(s: State, first: nat, decodeTags: seq<byte> -> Option<T>)
    requires Inv(s, first) && Stopped(s) && decodeTags(s.sink.writer.table).Some?
    ensures var k := s.sink;
            && Ring.Queued(s.ring) == [] && s.worker.batch == [] && k.writer.open.None?
            && Flatten(k.handed) == s.ring.pushed && |k.fates| == |k.handed|
            && Store.Older(k.writer, first) <= |k.writer.finished|
            && Store.Lost(k.writer, first)
               + Store.ReadBack(k.writer.finished[Store.Older(k.writer, first)..], decodeTags)
               == OnDisk(k.handed, k.fates)
            && (k.failed == 0 ==> OnDisk(k.handed, k.fates) == k.handed)
            && (k.writer.deleted <= first ==> Store.Lost(k.writer, first) == [])
            && (k.writer.maxTotal == 0 ==> k.writer.deleted == 0)
  {
    NothingLeft(s, first);
    hide Ring.Inv, Control, Flow, Sizes, Drained, Flatten, Store.Holds, Store.Ordered, Store.ReadBack, Store.Lost, OnDisk;
    Store.ReadHeld(s.sink.writer, s.sink.clock, first, OnDisk(s.sink.handed, s.sink.fates), decodeTags);
    if s.sink.failed == 0 {
      AllSent(s.sink.handed, s.sink.fates);
    }
  }

  lemma NothingLeft(s: State, first: nat)
    requires Inv(s, first) && Stopped(s)
    ensures Ring.Queued(s.ring) == [] && s.worker.batch == [] && s.sink.writer.open.None?
    ensures Flatten(s.sink.handed) == s.ring.pushed
  {
    RingFacts(s.ring);
    hide Ring.Inv, Disk, Counts, Flatten;
    assert s.worker.phase.Done?;
    assert s.worker.batch + [] == [];
    assert s.ring.pushed[..s.ring.tail] == s.ring.pushed;
  }

  // ---------------------------------------------------------------------
  // The drain terminates
  // ---------------------------------------------------------------------

  function PopRank(c: Ring.Consumer<Sample>): nat {
    match c
    case Refreshing => 4
    case Taking => 3
    case Taken(_) => 2
    case Destroyed(_) => 1
    case Waiting(got) => if got.Some? then 17 else 0
  }

  function PhaseRank(s: State): nat {
    var late := if s.worker.stopping then 0 else 10;
    match s.worker.phase
    case Top => 9
    case Drain => 8 + late
    case Popping => 3 + PopRank(s.ring.consumer) + late
    case Decide => 2 + late
    case CheckingEmpty => 1 + late
    case Done => 0
  }

  /** Samples still queued, samples in the batch, and how far the current round is. */
  function Measure(s: State): nat {
    20 * (if s.ring.tail >= s.ring.head then s.ring.tail - s.ring.head else 0)
    + 10 * |s.worker.batch| + PhaseRank(s)
  }

  lemma PopRanks(s: State, e: Event)
    requires Ring.Inv(s.ring) && Control(s) && Enabled(s, e) && (ConsumerRingStep(e) || (e.TryPop? && !Full(s)))
    ensures var t := NextRing(s, e);
            && (!e.PublishHead? && !e.TryPop? ==> PopRank(t.consumer) < PopRank(s.ring.consumer))
            && (e.TryPop? ==> PopRank(t.consumer) <= 4)
            && (e.PublishHead? ==> t.head == s.ring.head + 1 && PopRank(t.consumer) == 17 && s.ring.head < s.ring.tail)
  {
    hide Ring.Inv, Control;
    RingPossible(s, e);
    Ring.InvSafe(s.ring);
    RingFacts(s.ring);
    TakingBehindTail(s.ring);
  }

  lemma TakingBehindTail(r: Ring.Ring<Sample>)
    requires Ring.Inv(r)
    ensures r.consumer.Destroyed? ==> r.head < r.tail
  {}

  lemma WaitingRank(c: Ring.Consumer<Sample>)
    ensures c.Waiting? ==> PopRank(c) == if c.got.Some? then 17 else 0
  {}

  lemma RingStepProgress(s: State, e: Event)
    requires Ring.Inv(s.ring) && Control(s) && Enabled(s, e) && ConsumerRingStep(e)
    ensures Measure(Next(s, e)) < Measure(s)
  {
    StepFrame(s, e);
    RingFacts(s.ring);
    PopRanks(s, e);
    PoppingWorker(s, e);
    hide Ring.Inv, Control, Enabled, NextRing, NextWorker, NextGate, NextSink, NextCounters, PopRank;
  }

  lemma PoppingWorker(s: State, e: Event)
    requires Enabled(s, e) && ConsumerRingStep(e)
    ensures s.worker.phase.Popping? && NextWorker(s, e) == s.worker
  {}

  lemma LoopProgress(s: State, e: Event)
    requires Ring.Inv(s.ring) && Control(s) && Enabled(s, e) && s.gate.stopRequested
    requires e.ReadStop? || e.TryPop? || e.PopReturns?
    ensures if Stale(e) then Measure(Next(s, e)) == Measure(s) + 9 else Measure(Next(s, e)) < Measure(s)
  {
    StepFrame(s, e);
    RingFacts(s.ring);
    if e.TryPop? && !Full(s) {
      PopRanks(s, e);
    }
    WaitingRank(s.ring.consumer);
    WorkerInLoop(s, e);
    hide Ring.Inv, Control, Enabled, NextRing, NextWorker, NextGate, NextSink, NextCounters, PopRank, Full;
  }

  lemma WorkerInLoop(s: State, e: Event)
    requires Control(s) && Enabled(s, e) && s.gate.stopRequested && (e.ReadStop? || e.TryPop? || e.PopReturns?)
    ensures var w, v, got := s.worker, NextWorker(s, e), s.ring.consumer;
            && (e.ReadStop? ==> w.phase.Top? && v == Worker(Drain, e.observed, w.batch))
            && (e.TryPop? ==> w.phase.Drain? && v == w.(phase := if Full(s) then Decide else Popping))
            && (e.PopReturns? ==> w.phase.Popping? && got.Waiting? && v.stopping == w.stopping)
            && (e.PopReturns? && got.got.Some? ==> v.phase.Drain? && |v.batch| == |w.batch| + 1)
            && (e.PopReturns? && got.got.None? ==> v.phase.Decide? && v.batch == w.batch)
  {}

  lemma FlushProgress(s: State, e: Event)
    requires Ring.Inv(s.ring) && Control(s) && OptionsValid(s) && Sizes(s) && Drained(s) && Enabled(s, e)
    requires s.gate.stopRequested && (e.Flush? || e.CheckEmpty?)
    ensures Measure(Next(s, e)) < Measure(s)
  {
    StepFrame(s, e);
    RingFacts(s.ring);
    WorkerAtFlush(s, e);
    hide Ring.Inv, Control, Enabled, Drained, NextRing, NextWorker, NextGate, NextSink, NextCounters, PopRank;
  }

  lemma WorkerAtFlush(s: State, e: Event)
    requires Ring.Inv(s.ring) && Control(s) && OptionsValid(s) && Sizes(s) && Drained(s) && Enabled(s, e)
    requires e.Flush? || e.CheckEmpty?
    ensures var w, v := s.worker, NextWorker(s, e);
            && (e.Flush? ==> w.phase.Decide?)
            && (e.Flush? && v.batch == w.batch ==> v.phase == if w.stopping then CheckingEmpty else Top)
            && (e.Flush? && v.batch != w.batch ==> v.phase.Top? && v.batch == [] && w.batch != [])
            && (e.CheckEmpty? ==> w.phase.CheckingEmpty? && w.stopping && v.phase.Done? && v.batch == [])
            && v.stopping == w.stopping
  {
    RingFacts(s.ring);
    hide Ring.Inv;
  }

  /** After stop was requested every step of the consumer brings it closer to returning, but for
      a read that misses the request, which costs it one more round. */
  lemma DrainMakesProgress(s: State, e: Event, first: nat)
    requires Inv(s, first) && s.gate.stopRequested && Enabled(s, e) && ConsumerStep(e)
    ensures if Stale(e) then Measure(Next(s, e)) == Measure(s) + 9 else Measure(Next(s, e)) < Measure(s)
  {
    hide Ring.Inv, Control, Drained, Flow, Sizes, Counts, Disk, Closed, Enabled, Next, Measure;
    if ConsumerRingStep(e) { RingStepProgress(s, e); }
    else if e.Flush? || e.CheckEmpty? { FlushProgress(s, e); }
    else { LoopProgress(s, e); }
  }

  /** Nothing anybody else does sets it back. */
  lemma DrainIsNotDisturbed(s: State, e: Event, first: nat)
    requires Inv(s, first) && s.gate.stopRequested && !s.worker.phase.Done? && Enabled(s, e) && !ConsumerStep(e)
    ensures Measure(Next(s, e)) == Measure(s)
    ensures Next(s, e).gate.stopRequested && !Next(s, e).worker.phase.Done?
  {
    hide Ring.Inv, Flow, Counts, Disk, Closed, Sizes, Drained, NextRing, NextSink, NextCounters, PopRank, Ring.Enabled,
         MakeSample;
    StepFrame(s, e);
    RingFacts(s.ring);
  }

  lemma PopNeverStuck(s: State) returns (e: Event)
    requires Ring.Inv(s.ring) && s.worker.phase.Popping?
    ensures ConsumerStep(e) && Enabled(s, e)
  {
    RingFacts(s.ring);
    hide Ring.Inv;
    match s.ring.consumer {
      case Refreshing => e := ReloadTail(s.ring.tail);
      case Taking => e := MoveOut;
      case Taken(_) => e := Destroy;
      case Destroyed(_) => e := PublishHead;
      case Waiting(_) => e := PopReturns;
    }
  }

  /** And as long as it has not returned, the consumer has a step to take. */
  lemma DrainNeverStuck(s: State, first: nat) returns (e: Event)
    requires Inv(s, first) && !s.worker.phase.Done?
    ensures ConsumerStep(e) && Enabled(s, e)
  {
    hide Ring.Inv, Flow, Counts, Disk, Closed, Drained, Control, Sizes;
    if s.worker.phase.Popping? {
      e := PopNeverStuck(s);
    } else {
      e := LoopNeverStuck(s);
    }
  }

  lemma LoopNeverStuck(s: State) returns (e: Event)
    requires Ring.Inv(s.ring) && !s.worker.phase.Done? && !s.worker.phase.Popping?
    ensures ConsumerStep(e) && Enabled(s, e)
  {
    RingFacts(s.ring);
    hide Ring.Inv, Ring.Enabled;
    match s.worker.phase
    case Top => e := ReadStop(s.gate.stopRequested);
    case Drain => e := TryPop;
    case Decide => e := Flush(false, s.sink.clock, Store.Works);
    case CheckingEmpty => e := CheckEmpty(s.ring.tail, s.sink.clock, Store.Works);
  }

  function ConsumerSteps(events: seq<Event>): nat {
    if events == [] then 0 else (if ConsumerStep(events[0]) then 1 else 0) + ConsumerSteps(events[1..])
  }

  /** A look at the stop flag that does not see the request made. */
  predicate Stale(e: Event) { e.ReadStop? && !e.observed }

  function StaleReads(events: seq<Event>): nat {
    if events == [] then 0 else (if Stale(events[0]) then 1 else 0) + StaleReads(events[1..])
  }

  /** The consumer thread returns at some point of the run. */
  predicate Returns(s: State, events: seq<Event>)
    requires Execution(s, events)
    decreases |events|
  {
    s.worker.phase.Done? || (events != [] && Returns(Next(s, events[0]), events[1..]))
  }

  /** After a stop request the consumer takes fewer steps than its measure counts, and ten for each
      time it misses the request, or returns in the course of them, whatever else is scheduled in
      between. */
  lemma {:induction false} DrainTerminates(s: State, events: seq<Event>, first: nat)
    requires Inv(s, first) && s.gate.stopRequested && Execution(s, events)
    ensures Returns(s, events) || ConsumerSteps(events) < Measure(s) + 10 * StaleReads(events)
    decreases |events|
  {
    hide Inv, Enabled, Next, ConsumerStep, Measure, Stale;
    if !s.worker.phase.Done? {
      MeasurePositive(s);
      if events != [] {
        var e, t := events[0], Next(s, events[0]);
        StepInv(s, e, first);
        if ConsumerStep(e) {
          DrainMakesProgress(s, e, first);
          StopStays(s, e);
        } else {
          OnlyConsumerReads(e);
          DrainIsNotDisturbed(s, e, first);
        }
        DrainTerminates(t, events[1..], first);
      }
    }
  }

  /** Once the consumer has returned, the stop call that waits for it has only its own two steps
      left, and nobody can keep it from them. */
  lemma JoinEnds(s: State)
    requires s.gate.stopper.Joining? && s.worker.phase.Done? && !s.gate.accepting
    ensures Enabled(s, StopJoin) && Enabled(Next(s, StopJoin), StopClose)
    ensures Stopped(Next(Next(s, StopJoin), StopClose))
  {}

  lemma OnlyConsumerReads(e: Event)
    ensures Stale(e) ==> ConsumerStep(e)
  {}

  lemma MeasurePositive(s: State)
    ensures !s.worker.phase.Done? ==> Measure(s) > 0
  {}

  lemma StopStays(s: State, e: Event)
    requires Enabled(s, e) && ConsumerStep(e)
    ensures Next(s, e).gate == s.gate
  {
    hide NextRing, NextWorker, NextSink, NextCounters;
  }
}
