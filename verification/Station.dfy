/** A poller and its client together, each on its own strand. Calls of the poller are posted to
    the client's strand, callbacks of the client to the poller's, so any step of either side may
    come in between; the connection flag is read across strands. */
module Station {
  import opened Octets
  import opened Optional
  import opened Sensors
  import opened ReadPlanner
  import opened RegisterDecode
  import Codec = FrameCodec
  import Poll = PollRuns
  import Client = ModbusRuns
  import Acquisition

  // ---------------------------------------------------------------------
  // State
  // ---------------------------------------------------------------------

  datatype Device = Device(setup: Poll.Setup, unit: byte)

  /** A call posted to the client's strand. */
  datatype Ask = AskConnect | AskRead(block: nat)

  /** `closes` counts the posted close calls, `heard` the callbacks the poller has handled;
      `starts` remembers for each finished cycle the number of its first read. */
  datatype State = State(poll: Poll.State, client: Client.State, asked: Option<Ask>, closes: nat, heard: nat,
                         starts: seq<int>)

  datatype Event =
    | Start(now: nat, stamp: int) | Stop
    | TimerFires(aborted: bool, now: nat, stamp: int) | Schedule(now: nat)
    | Hear(stamp: int)
    | Call | Close
    | Strand(event: Client.Event)

  /** The blocks come from plan_reads with its default limit, for registers that exist. */
  ghost predicate Sound(d: Device) {
    && Poll.Planned(d.setup)
    && (forall b <- d.setup.blocks :: b.quantity <= 125 && b.start < 0x1_0000)
    && (forall s <- d.setup.sensors :: s.End() <= 0x1_0000)
  }

  predicate Addressable(d: Device) {
    forall b <- d.setup.blocks :: b.quantity < 0x1_0000 && b.start < 0x1_0000
  }

  function Init(): State { State(Poll.Init(), Client.Init(), None, 0, 0, []) }

  // ---------------------------------------------------------------------
  // Steps
  // ---------------------------------------------------------------------

  /** What the poller's handler of the next callback is told. */
  function Told(s: State, stamp: int): Poll.Event
    requires s.heard < |s.client.log.callbacks|
  {
    var connected := s.client.client.connected;
    match s.client.log.callbacks[s.heard].result
    case Connected(ok) => Poll.Connected(ok, connected, stamp)
    case Registers(values) => Poll.Replied(Some(values), connected, stamp)
    case Error(_) => Poll.Replied(None, connected, stamp)
  }

  /** The poller's step, if the event is one. */
  function PollEvent(s: State, e: Event): Option<Poll.Event> {
    var connected := s.client.client.connected;
    match e
    case Start(now, stamp) => Some(Poll.Start(now, connected, stamp))
    case Stop => Some(Poll.Stop)
    case TimerFires(aborted, now, stamp) => Some(Poll.TimerFires(aborted, now, connected, stamp))
    case Schedule(now) => Some(Poll.Schedule(now))
    case Hear(stamp) => if s.heard < |s.client.log.callbacks| then Some(Told(s, stamp)) else None
    case _ => None
  }

  function CallOf(d: Device, ask: Ask): Client.Event
    requires Addressable(d) && (ask.AskRead? ==> ask.block < |d.setup.blocks|)
  {
    match ask
    case AskConnect => Client.CallConnect
    case AskRead(k) =>
      var b := d.setup.blocks[k];
      Client.CallRequest(d.unit, ReadCode(b.table), b.start, b.quantity)
  }

  /** The client's step, if the event is one. */
  function ClientEvent(d: Device, s: State, e: Event): Option<Client.Event>
    requires Addressable(d)
  {
    match e
    case Call =>
      if s.asked.Some? && (s.asked.value.AskRead? ==> s.asked.value.block < |d.setup.blocks|)
      then Some(CallOf(d, s.asked.value)) else None
    case Close => Some(Client.CallClose)
    case Strand(x) => Some(x)
    case _ => None
  }

  /** Calls run as soon as they have been posted, callbacks as soon as they have fired; whether
      the two sides are ready for them is a theorem. */
  predicate Enabled(d: Device, s: State, e: Event) {
    match e
    case Hear(_) => s.heard < |s.client.log.callbacks|
    case Call => s.asked.Some?
    case Close => s.closes > 0
    case Strand(x) => !x.CallConnect? && !x.CallRequest? && !x.CallClose? && Client.Enabled(s.client, x)
    case _ => Poll.Enabled(d.setup, s.poll, PollEvent(s, e).value)
  }

  function NextPoll(d: Device, s: State, e: Event): Poll.State {
    var x := PollEvent(s, e);
    if x.Some? && Poll.Enabled(d.setup, s.poll, x.value) then Poll.Next(d.setup, s.poll, x.value) else s.poll
  }

  function NextClient(d: Device, s: State, e: Event): Client.State
    requires Addressable(d)
  {
    var x := ClientEvent(d, s, e);
    if x.Some? && Client.Enabled(s.client, x.value) then Client.Next(s.client, x.value) else s.client
  }

  /** Is the poller waiting for the client? */
  predicate Waits(poll: Poll.State) {
    poll.pending != [] && (poll.pending[0].Connecting? || poll.pending[0].Requesting?)
  }

  function AskOf(poll: Poll.State): Option<Ask> {
    if !Waits(poll) then None
    else if poll.pending[0].Connecting? then Some(AskConnect) else Some(AskRead(poll.pending[0].block))
  }

  function NextAsked(s: State, e: Event, poll: Poll.State): Option<Ask> {
    if e.Call? then None
    else if e.Stop? || PollEvent(s, e).None? || AskOf(poll).None? then s.asked
    else AskOf(poll)
  }

  function Next(d: Device, s: State, e: Event): State
    requires Addressable(d)
  {
    var poll := NextPoll(d, s, e);
    var heard := if e.Hear? then s.heard + 1 else s.heard;
    var closes := if e.Stop? then s.closes + 1 else if e.Close? && s.closes > 0 then s.closes - 1 else s.closes;
    var starts := if |poll.journal.cycles| > |s.poll.journal.cycles| then s.starts + [heard - |d.setup.blocks|]
                  else s.starts;
    State(poll, NextClient(d, s, e), NextAsked(s, e, poll), closes, heard, starts)
  }

  // ---------------------------------------------------------------------
  // Invariants
  // ---------------------------------------------------------------------

  /** Connect calls get a yes or no, requests get registers or an error. */
  ghost predicate Kinds(log: Client.Log) {
    && |log.callbacks| <= |log.issued|
    && forall k | 0 <= k < |log.callbacks| :: log.callbacks[k].result.Connected? <==> log.issued[k].ConnectJob?
  }

  /** Is the call the one the poller waits for? */
  ghost predicate JobFits(d: Device, task: Poll.Task, job: Client.Job)
    requires Addressable(d)
  {
    match task
    case Connecting => job.ConnectJob?
    case Requesting(k, _) => k < |d.setup.blocks| && ReadsBlock(d, k, job)
    case _ => false
  }

  ghost predicate ReadsBlock(d: Device, k: nat, job: Client.Job)
    requires Addressable(d) && k < |d.setup.blocks|
  {
    job.RequestJob? && job.request == ReadRequest(d.setup.blocks[k], job.request.transactionId, d.unit)
  }

  /** While the poller waits for the client exactly one call is posted, in progress or called
      back, namely the one it waits for; otherwise none is. */
  ghost predicate Linked(d: Device, s: State)
    requires Addressable(d)
  {
    var unheard := |s.client.log.issued| - s.heard;
    && s.heard <= |s.client.log.callbacks| <= |s.client.log.issued|
    && (if s.asked.Some? then 1 else 0) + unheard == (if Waits(s.poll) then 1 else 0)
    && (s.asked.Some? ==> s.asked == AskOf(s.poll))
    && (unheard > 0 ==> Waits(s.poll) && JobFits(d, s.poll.pending[0], s.client.log.issued[s.heard]))
  }

  /** Call number `serial` was a read of block k and delivered these registers. */
  ghost predicate Delivered(d: Device, log: Client.Log, serial: int, k: nat, registers: seq<u16>)
    requires Addressable(d) && k < |d.setup.blocks|
  {
    && 0 <= serial < |log.callbacks| && serial < |log.issued|
    && log.callbacks[serial].result == Client.Registers(registers)
    && ReadsBlock(d, k, log.issued[serial])
  }

  /** The calls from number `start` on delivered these registers, block after block. */
  ghost predicate Reads(d: Device, log: Client.Log, start: int, replies: seq<seq<u16>>)
    requires Addressable(d)
  {
    && |replies| <= |d.setup.blocks|
    && forall k | 0 <= k < |replies| :: Delivered(d, log, start + k, k, replies[k])
  }

  ghost predicate Collected(d: Device, s: State)
    requires Addressable(d)
  {
    !s.poll.stopped ==> Reads(d, s.client.log, s.heard - |s.poll.replies|, s.poll.replies)
  }

  /** Each finished cycle made one read after another, and the cycles followed each other. */
  ghost predicate CycleReads(d: Device, s: State)
    requires Addressable(d)
  {
    var n, cycles := |d.setup.blocks|, s.poll.journal.cycles;
    && |s.starts| == |cycles|
    && (forall c | 0 <= c < |cycles| :: |cycles[c].replies| == n && Reads(d, s.client.log, s.starts[c], cycles[c].replies))
    && (forall b, c | 0 <= b < c < |cycles| :: s.starts[b] + n <= s.starts[c])
    && (!s.poll.stopped ==> forall c | 0 <= c < |cycles| :: s.starts[c] + n <= s.heard - |s.poll.replies|)
  }

  ghost predicate Inv(d: Device, s: State)
    requires Addressable(d)
  {
    && Poll.Inv(d.setup, s.poll) && Client.Inv(s.client) && Kinds(s.client.log)
    && Linked(d, s) && Collected(d, s) && CycleReads(d, s)
  }

  // ---------------------------------------------------------------------
  // What each side does in a step
  // ---------------------------------------------------------------------

  lemma StepKinds(s: Client.State, e: Client.Event)
    requires Client.Inv(s) && Kinds(s.log) && Client.Enabled(s, e)
    ensures Kinds(Client.Next(s, e).log)
  {
    hide Client.Timers, Client.Delivered, Client.InOrder, Client.Answered, Codec.ExpectedFrameLength, Codec.Decode;
  }

  /** The log only grows, by at most one callback; only calls add to what was issued. */
  lemma StepLog(s: Client.State, e: Client.Event)
    requires Client.Enabled(s, e)
    ensures s.log.issued <= Client.Next(s, e).log.issued && s.log.callbacks <= Client.Next(s, e).log.callbacks
    ensures !e.CallConnect? && !e.CallRequest? ==> Client.Next(s, e).log.issued == s.log.issued
    ensures e.CallConnect? ==> Client.Next(s, e).log.issued == s.log.issued + [Client.ConnectJob]
    ensures e.CallRequest? ==>
              Client.Next(s, e).log.issued
              == s.log.issued + [Client.RequestJob(Codec.Request(s.client.nextId, e.unit, e.operation, e.start,
                                                                 e.quantityOrValue))]
  {
    hide Codec.ExpectedFrameLength, Codec.Decode;
  }

  /** The answers of the running cycle once the event's own is counted. */
  function Got(s: Poll.State, e: Poll.Event): seq<seq<u16>> {
    if !e.Replied? then s.replies else if e.result.Some? then s.replies + [e.result.value] else []
  }

  /** From these cycles and answers the poller goes on collecting, gives the cycle up, or
      finishes it with all answers. */
  ghost predicate Collects(p: Poll.Setup, cycles: seq<Poll.Cycle>, got: seq<seq<u16>>, t: Poll.State) {
    var later := t.journal.cycles;
    || (later == cycles && (t.replies == [] || t.replies == got))
    || (t.replies == [] && |got| == |p.blocks| && |later| == |cycles| + 1
        && later[..|cycles|] == cycles && later[|cycles|].replies == got)
  }

  lemma BlockReadCollects(p: Poll.Setup, s: Poll.State, block: nat, values: Poll.Values, stamp: int)
    requires block == |s.replies| <= |p.blocks|
    ensures Collects(p, s.journal.cycles, s.replies, Poll.BlockRead(p, s, block, values, stamp))
  {
    hide Poll.ReadingsOf;
  }

  lemma CycleRunCollects(p: Poll.Setup, s: Poll.State, connected: bool, stamp: int)
    requires s.replies == []
    ensures Collects(p, s.journal.cycles, [], Poll.CycleRun(p, s, connected, stamp))
  {
    hide Poll.BlockRead;
    BlockReadCollects(p, s, 0, Poll.Nothing(p), stamp);
  }

  lemma FailedCollects(p: Poll.Setup, s: Poll.State, connected: bool, got: seq<seq<u16>>)
    ensures Collects(p, s.journal.cycles, got, Poll.CycleFailed(s, connected))
  {}

  lemma ReplyCollects(p: Poll.Setup, s: Poll.State, e: Poll.Event)
    requires Poll.Enabled(p, s, e) && !s.stopped && e.Replied? && s.pending[0].block == |s.replies|
    ensures Collects(p, s.journal.cycles, Got(s, e), Poll.Next(p, s, e))
  {
    hide Collects, Poll.BlockRead, Poll.CycleFailed, Poll.Updated;
    var t, task := Poll.Popped(s), s.pending[0];
    if e.result.Some? {
      BlockReadCollects(p, t.(replies := s.replies + [e.result.value]), task.block + 1,
                        Poll.Updated(p, p.blocks[task.block], task.values, e.result.value), e.stamp);
    } else {
      FailedCollects(p, t, e.connected, []);
    }
  }

  lemma ConnectCollects(p: Poll.Setup, s: Poll.State, e: Poll.Event)
    requires Poll.Enabled(p, s, e) && !s.stopped && e.Connected? && s.replies == []
    ensures Collects(p, s.journal.cycles, [], Poll.Next(p, s, e))
  {
    hide Collects, Poll.BlockRead, Poll.CycleFailed;
    var t := Poll.Popped(s);
    BlockReadCollects(p, t, 0, Poll.Nothing(p), e.stamp);
    FailedCollects(p, t, e.connected, []);
  }

  lemma StepCollects(p: Poll.Setup, s: Poll.State, e: Poll.Event)
    requires Poll.Inv(p, s) && Poll.Enabled(p, s, e) && !s.stopped
    ensures Collects(p, s.journal.cycles, Got(s, e), Poll.Next(p, s, e))
    ensures !e.Replied? && !e.Stop? ==> s.replies == []
    ensures e.Replied? ==> s.pending[0].Requesting? && s.pending[0].block == |s.replies| < |p.blocks|
  {
    hide Poll.Faithful, Poll.StatusKnown, Poll.OnTime, Poll.ValuesAt, Poll.CycleRun, Poll.ReplyHandled, Poll.ConnectHandled;
    match e
    case Start(now, connected, stamp) =>
      CycleRunCollects(p, s.(clock := now, nextTick := now, journal := s.journal.(ticks := [Poll.Tick(now, now)])),
                       connected, stamp);
    case TimerFires(_, now, connected, stamp) =>
      CycleRunCollects(p, Poll.Popped(s).(clock := now), connected, stamp);
    case Connected(_, _, _) => ConnectCollects(p, s, e);
    case Replied(_, _, _) => ReplyCollects(p, s, e);
    case _ =>
  }

  /** A stopped poller finishes no cycle and keeps what it had; only Stop stops it. */
  lemma StepStops(p: Poll.Setup, s: Poll.State, e: Poll.Event)
    requires Poll.Enabled(p, s, e)
    ensures e.Stop? ==> Poll.Next(p, s, e) == s.(stopped := true)
    ensures !e.Stop? ==> Poll.Next(p, s, e).stopped == s.stopped
    ensures s.stopped ==> Poll.Next(p, s, e).journal.cycles == s.journal.cycles
  {
    hide Poll.ReadingsOf, Poll.Updated;
  }

  // ---------------------------------------------------------------------
  // The two sides are always ready for each other
  // ---------------------------------------------------------------------

  /** plan_reads gives a sound set-up whenever the configured registers exist. */
  lemma PlanIsSound(d: Device)
    requires EachOnce(d.setup.sensors, Indices(d.setup.blocks))
    requires forall b <- d.setup.blocks :: Exact(d.setup.sensors, b) && b.quantity <= 125
    requires forall s <- d.setup.sensors :: s.End() <= 0x1_0000
    ensures Sound(d) && Addressable(d)
  {
    hide Exact, EachOnce;
    forall b | b in d.setup.blocks ensures b.start < 0x1_0000 {
      BlocksStayInRange(d.setup.sensors, b);
    }
  }

  /** Every callback finds the poller waiting for just that kind of answer, and whatever the
      poller does is something its state machine allows. */
  lemma PollFits(d: Device, s: State, e: Event)
    requires Addressable(d) && Inv(d, s) && Enabled(d, s, e) && PollEvent(s, e).Some?
    ensures Poll.Enabled(d.setup, s.poll, PollEvent(s, e).value)
    ensures e.Hear? ==> Waits(s.poll)
    ensures !e.Hear? && !e.Stop? ==> !Waits(s.poll)
  {
    hide Poll.Faithful, Poll.StatusKnown, Poll.OnTime, Poll.OnePending, Client.Inv, Collected, CycleReads,
         Poll.ValueAt;
    if e.Hear? { assert s.poll.pending != []; }
  }

  /** The client is never called while a call is in progress. */
  lemma ClientFits(d: Device, s: State, e: Event)
    requires Addressable(d) && Inv(d, s) && Enabled(d, s, e)
    ensures e.Call? ==> s.client.op.Idle? && s.heard == |s.client.log.callbacks| == |s.client.log.issued|
    ensures e.Call? || e.Close? || e.Strand? ==>
              ClientEvent(d, s, e).Some? && Client.Enabled(s.client, ClientEvent(d, s, e).value)
  {
    hide Poll.Faithful, Poll.StatusKnown, Poll.OnTime, Poll.ValuesAt, Collected, CycleReads,
         Client.Streams, Client.Timers, Client.Delivered, Client.InOrder;
  }

  // ---------------------------------------------------------------------
  // Every step keeps the invariants
  // ---------------------------------------------------------------------

  lemma LinkedByPoll(d: Device, s: State, e: Event)
    requires Addressable(d) && Inv(d, s) && Enabled(d, s, e) && PollEvent(s, e).Some?
    ensures Linked(d, Next(d, s, e))
  {
    hide Poll.Inv, Client.Inv, Kinds, Collected, CycleReads, Poll.Enabled, Poll.Next, JobFits, Enabled;
    PollFits(d, s, e);
    StepStops(d.setup, s.poll, PollEvent(s, e).value);
    PollOnly(d, s, e);
  }

  /** A poller's step leaves the client alone. */
  lemma PollOnly(d: Device, s: State, e: Event)
    requires Addressable(d) && PollEvent(s, e).Some?
    ensures NextClient(d, s, e) == s.client
    ensures e.Hear? ==> s.heard < |s.client.log.callbacks|
    ensures e.Stop? <==> PollEvent(s, e).value.Stop?
    ensures !e.Call? && !e.Close? && !e.Strand?
  {}

  lemma LinkedByClient(d: Device, s: State, e: Event)
    requires Addressable(d) && Inv(d, s) && Enabled(d, s, e) && PollEvent(s, e).None?
    ensures Linked(d, Next(d, s, e)) && Kinds(Next(d, s, e).client.log)
  {
    hide Poll.Inv, Client.Inv, Kinds, Collected, CycleReads, Poll.Enabled, Poll.Next, Client.Enabled, Client.Next;
    ClientFits(d, s, e);
    var x := ClientEvent(d, s, e).value;
    StepLog(s.client, x);
    StepKinds(s.client, x);
    KindsBound(Next(d, s, e).client.log);
  }

  lemma KindsBound(log: Client.Log)
    requires Kinds(log)
    ensures |log.callbacks| <= |log.issued|
  {}

  lemma ReadsStay(d: Device, log: Client.Log, later: Client.Log, start: int, replies: seq<seq<u16>>)
    requires Addressable(d) && Reads(d, log, start, replies)
    requires log.issued <= later.issued && log.callbacks <= later.callbacks
    ensures Reads(d, later, start, replies)
  {
    hide ReadsBlock;
    forall k | 0 <= k < |replies| ensures Delivered(d, later, start + k, k, replies[k]) {
      assert Delivered(d, log, start + k, k, replies[k]);
    }
  }

  /** A step of the client only adds to the log the poller has read from. */
  lemma ReadingByClient(d: Device, s: State, e: Event)
    requires Addressable(d) && Inv(d, s) && Enabled(d, s, e) && PollEvent(s, e).None?
    ensures Collected(d, Next(d, s, e)) && CycleReads(d, Next(d, s, e))
  {
    hide Poll.Inv, Client.Inv, Kinds, Linked, Poll.Enabled, Poll.Next, Client.Enabled, Client.Next, Reads;
    ClientFits(d, s, e);
    StepLog(s.client, ClientEvent(d, s, e).value);
    var log, later := s.client.log, Next(d, s, e).client.log;
    if !s.poll.stopped {
      ReadsStay(d, log, later, s.heard - |s.poll.replies|, s.poll.replies);
    }
    forall c | 0 <= c < |s.starts| ensures Reads(d, later, s.starts[c], s.poll.journal.cycles[c].replies) {
      ReadsStay(d, log, later, s.starts[c], s.poll.journal.cycles[c].replies);
    }
  }

  /** What the poller has got, with the answer it is just told, are the registers of its last
      reads. */
  lemma GotReads(d: Device, s: State, e: Event)
    requires Addressable(d) && Inv(d, s) && Enabled(d, s, e) && PollEvent(s, e).Some? && !e.Stop? && !s.poll.stopped
    ensures var got := Got(s.poll, PollEvent(s, e).value);
            && Reads(d, s.client.log, Next(d, s, e).heard - |got|, got)
            && s.heard - |s.poll.replies| <= Next(d, s, e).heard - |got|
  {
    hide Poll.Inv, Client.Inv, Kinds, CycleReads, Poll.Enabled, Poll.Next, Enabled, ReadsBlock;
    PollFits(d, s, e);
    PollOnly(d, s, e);
    var x := PollEvent(s, e).value;
    StepCollects(d.setup, s.poll, x);
    if x.Replied? && x.result.Some? {
      var replies, start := s.poll.replies, s.heard - |s.poll.replies|;
      assert Delivered(d, s.client.log, s.heard, |replies|, x.result.value);
      forall k | 0 <= k <= |replies|
        ensures Delivered(d, s.client.log, start + k, k, (replies + [x.result.value])[k])
      {}
    }
  }

  lemma ReadingByPoll(d: Device, s: State, e: Event)
    requires Addressable(d) && Inv(d, s) && Enabled(d, s, e) && PollEvent(s, e).Some?
    ensures Collected(d, Next(d, s, e)) && CycleReads(d, Next(d, s, e))
  {
    hide Poll.Inv, Client.Inv, Kinds, Linked, Poll.Enabled, Poll.Next, Reads, Enabled, Got, Collected, CycleReads, Collects;
    PollFits(d, s, e);
    PollOnly(d, s, e);
    var x := PollEvent(s, e).value;
    StepStops(d.setup, s.poll, x);
    if e.Stop? || s.poll.stopped {
      NothingRead(d, s, Next(d, s, e));
    } else {
      StepCollects(d.setup, s.poll, x);
      GotReads(d, s, e);
      NoReads(d, s.client.log, Next(d, s, e).heard);
      ReadsFollow(d, s, Next(d, s, e), Got(s.poll, x));
    }
  }

  lemma NothingRead(d: Device, s: State, t: State)
    requires Addressable(d) && CycleReads(d, s) && t.poll.stopped && t.client == s.client
    requires t.poll.journal.cycles == s.poll.journal.cycles && t.starts == s.starts
    ensures Collected(d, t) && CycleReads(d, t)
  {
    hide Reads;
  }

  /** The poller goes on with what it has got, or finishes the cycle with it. */
  lemma ReadsFollow(d: Device, s: State, t: State, got: seq<seq<u16>>)
    requires Addressable(d) && CycleReads(d, s) && !s.poll.stopped && t.client == s.client
    requires Collects(d.setup, s.poll.journal.cycles, got, t.poll)
    requires Reads(d, s.client.log, t.heard - |got|, got) && Reads(d, s.client.log, t.heard, [])
    requires s.heard - |s.poll.replies| <= t.heard - |got|
    requires t.starts == if |t.poll.journal.cycles| > |s.poll.journal.cycles|
                         then s.starts + [t.heard - |d.setup.blocks|] else s.starts
    ensures Collected(d, t) && CycleReads(d, t)
  {
    hide Reads;
  }

  lemma NoReads(d: Device, log: Client.Log, start: int)
    requires Addressable(d)
    ensures Reads(d, log, start, [])
  {}

  lemma StepInv(d: Device, s: State, e: Event)
    requires Addressable(d) && Inv(d, s) && Enabled(d, s, e)
    ensures Inv(d, Next(d, s, e))
  {
    hide Poll.Inv, Client.Inv, Kinds, Linked, Collected, CycleReads, Poll.Enabled, Poll.Next, Client.Enabled, Client.Next;
    if PollEvent(s, e).Some? {
      PollFits(d, s, e);
      PollOnly(d, s, e);
      Poll.StepInv(d.setup, s.poll, PollEvent(s, e).value);
      LinkedByPoll(d, s, e);
      ReadingByPoll(d, s, e);
    } else {
      ClientFits(d, s, e);
      Client.StepInv(s.client, ClientEvent(d, s, e).value);
      LinkedByClient(d, s, e);
      ReadingByClient(d, s, e);
    }
  }

  lemma InitInv(d: Device)
    requires Addressable(d)
    ensures Inv(d, Init())
  {
    Poll.InitInv(d.setup);
    Client.InitInv();
    hide Poll.Inv, Client.Inv;
  }

  // ---------------------------------------------------------------------
  // Whole runs
  // ---------------------------------------------------------------------

  predicate Execution(d: Device, s: State, events: seq<Event>)
    requires Addressable(d)
    decreases |events|
  {
    events == [] || (Enabled(d, s, events[0]) && Execution(d, Next(d, s, events[0]), events[1..]))
  }

  function After(d: Device, s: State, events: seq<Event>): State
    requires Addressable(d) && Execution(d, s, events)
    decreases |events|
  {
    if events == [] then s else After(d, Next(d, s, events[0]), events[1..])
  }

  lemma {:induction false} RunInv(d: Device, s: State, events: seq<Event>)
    requires Addressable(d) && Inv(d, s) && Execution(d, s, events)
    ensures Inv(d, After(d, s, events))
    decreases |events|
  {
    hide Inv, Enabled, Next;
    if events != [] {
      StepInv(d, s, events[0]);
      RunInv(d, Next(d, s, events[0]), events[1..]);
    }
  }

  lemma RunsKeepInv(d: Device, events: seq<Event>)
    requires Addressable(d) && Execution(d, Init(), events)
    ensures Inv(d, After(d, Init(), events))
  {
    hide Inv, Execution, After;
    InitInv(d);
    RunInv(d, Init(), events);
  }

  /** In every run, while the poller waits for the client there is exactly one call posted, in
      progress or called back, and otherwise none: no call reaches a client that is busy, no
      callback is lost, none is handled twice, and neither side waits for nothing. */
  lemma OneCallAtATime(d: Device, events: seq<Event>)
    requires Addressable(d) && Execution(d, Init(), events)
    ensures var s := After(d, Init(), events);
            && (if s.asked.Some? then 1 else 0) + (if s.client.op.Idle? then 0 else 1)
               + (|s.client.log.callbacks| - s.heard) == (if Waits(s.poll) then 1 else 0)
            && s.heard <= |s.client.log.callbacks|
            && |s.poll.pending| <= 1 && (s.poll.journal.ticks != [] && !s.poll.stopped ==> |s.poll.pending| == 1)
  {
    hide Execution, After, Collected, CycleReads, Kinds, JobFits,
         Poll.Collecting, Poll.Faithful, Poll.StatusKnown, Poll.OnTime,
         Client.Streams, Client.Timers, Client.Delivered, Client.InOrder;
    RunsKeepInv(d, events);
  }

  /** Every event that can happen finds both sides in a state in which they can take it. */
  lemma SidesFit(d: Device, events: seq<Event>, e: Event)
    requires Addressable(d) && Execution(d, Init(), events) && Enabled(d, After(d, Init(), events), e)
    ensures var s := After(d, Init(), events);
            && (PollEvent(s, e).Some? ==> Poll.Enabled(d.setup, s.poll, PollEvent(s, e).value))
            && (ClientEvent(d, s, e).Some? ==> Client.Enabled(s.client, ClientEvent(d, s, e).value))
            && (PollEvent(s, e).Some? <==> ClientEvent(d, s, e).None?)
  {
    hide Execution, After, Inv, Poll.Enabled, Client.Enabled;
    RunsKeepInv(d, events);
    var s := After(d, Init(), events);
    ClientFits(d, s, e);
    if PollEvent(s, e).Some? { PollFits(d, s, e); }
  }

  // ---------------------------------------------------------------------
  // A device that stops answering
  // ---------------------------------------------------------------------

  /** The three steps that follow when a request or a connect gets no answer. */
  function TimedOut(d: Device, s: State, stamp: int): State
    requires Addressable(d)
  {
    var late := Next(d, s, Strand(Client.Deadline(s.client.client.generation, false)));
    Next(d, Next(d, late, Strand(Client.Handle)), Hear(stamp))
  }

  /** A request the device never answers ends in three steps that are always possible: the
      deadline, the client's handler and the poller's. They publish an error and that the device
      is offline, unless that was said before, and the poller goes on to schedule its next cycle. */
  lemma SilentDeviceGoesOffline(d: Device, s: State, stamp: int)
    requires Addressable(d) && Inv(d, s) && !s.poll.stopped
    requires s.client.op.Running? && s.client.op.job.RequestJob?
    ensures var e := Strand(Client.Deadline(s.client.client.generation, false));
            var late := Next(d, s, e);
            var ended := Next(d, late, Strand(Client.Handle));
            Enabled(d, s, e) && Enabled(d, late, Strand(Client.Handle)) && Enabled(d, ended, Hear(stamp))
    ensures var t := TimedOut(d, s, stamp);
            && t.poll.journal.published == s.poll.journal.published + [Poll.PollError]
                                           + (if s.poll.lastStatus == Some(false) then [] else [Poll.Status(false)])
            && t.poll.lastStatus == Some(false) && t.poll.pending == [Poll.Scheduling]
            && t.client.op.Idle? && t.client.link == Client.DOWN
  {
    hide Poll.Inv, Client.Inv, Collected, CycleReads, Kinds, Poll.Next, Poll.Enabled, Client.Next, Client.Enabled;
    var e := Strand(Client.Deadline(s.client.client.generation, false));
    var late := Next(d, s, e);
    var ended := Next(d, late, Strand(Client.Handle));
    Client.TimeoutDelivers(s.client);
    OneUnheard(d, s);
    StepInv(d, s, e);
    StepInv(d, late, Strand(Client.Handle));
    FailedCycleReports(d, ended, stamp);
  }

  /** So does a connect that hangs, as long as its deadline is armed. */
  lemma HungConnectGoesOffline(d: Device, s: State, stamp: int)
    requires Addressable(d) && Inv(d, s) && !s.poll.stopped
    requires s.client.op.Running? && s.client.op.job.ConnectJob? && Client.Covered(s.client)
    ensures var e := Strand(Client.Deadline(s.client.client.generation, false));
            var late := Next(d, s, e);
            var ended := Next(d, late, Strand(Client.Handle));
            Enabled(d, s, e) && Enabled(d, late, Strand(Client.Handle)) && Enabled(d, ended, Hear(stamp))
    ensures var t := TimedOut(d, s, stamp);
            && t.poll.journal.published == s.poll.journal.published + [Poll.PollError]
                                           + (if s.poll.lastStatus == Some(false) then [] else [Poll.Status(false)])
            && t.poll.lastStatus == Some(false) && t.poll.pending == [Poll.Scheduling]
            && t.client.op.Idle? && !t.client.client.connected
  {
    hide Poll.Inv, Client.Inv, Collected, CycleReads, Kinds, Poll.Next, Poll.Enabled, Client.Next, Client.Enabled,
         Client.Covered;
    var e := Strand(Client.Deadline(s.client.client.generation, false));
    var late := Next(d, s, e);
    var ended := Next(d, late, Strand(Client.Handle));
    Client.ConnectTimesOut(s.client);
    OneUnheard(d, s);
    StepInv(d, s, e);
    StepInv(d, late, Strand(Client.Handle));
    FailedCycleReports(d, ended, stamp);
  }

  /** And the next cycle is scheduled: one more step, always possible, arms the timer. */
  lemma ScheduledAgain(d: Device, s: State, now: nat)
    requires Addressable(d) && Inv(d, s) && !s.poll.stopped && s.poll.pending == [Poll.Scheduling]
    requires s.poll.clock <= now
    ensures Enabled(d, s, Schedule(now)) && Next(d, s, Schedule(now)).poll.pending == [Poll.Timer]
    ensures now <= Next(d, s, Schedule(now)).poll.nextTick <= now + d.setup.interval
  {
    hide Client.Inv, Linked, Collected, CycleReads, Kinds, Poll.Collecting, Poll.Faithful, Poll.StatusKnown;
  }

  /** Without a deadline the poller waits with the connect: until the network completes it or
      somebody closes the client, nothing is published or scheduled. */
  lemma {:induction false} StallsWithConnect(d: Device, s: State, events: seq<Event>)
    requires Addressable(d) && Inv(d, s) && Execution(d, s, events)
    requires s.client.op.Running? && s.client.op.job.ConnectJob? && !Client.Covered(s.client)
    requires forall e <- events :: !e.Close? && (e.Strand? ==> !e.event.Complete?)
    ensures var t := After(d, s, events);
            t.client.op == s.client.op && t.poll.pending == s.poll.pending && t.poll.journal == s.poll.journal
    decreases |events|
  {
    hide Inv, Enabled, Next;
    if events != [] {
      StepStalls(d, s, events[0]);
      StepInv(d, s, events[0]);
      StallsWithConnect(d, Next(d, s, events[0]), events[1..]);
    }
  }

  /** It happens in the first cycle, when the deadline goes off between the name being resolved
      and its handler. */
  lemma StallHappens(d: Device)
    requires Addressable(d)
    ensures var events := [Start(0, 0), Call] + [Strand(Client.Complete(true, false)), Strand(Client.Deadline(1, false)),
                                                 Strand(Client.Handle)];
            && Execution(d, Init(), events)
            && var s := After(d, Init(), events);
               && s.client.op == Client.Running(0, Client.ConnectJob, Client.Connect) && !Client.Covered(s.client)
               && s.poll.pending == [Poll.Connecting] && !s.poll.stopped
  {
    hide Codec.ExpectedFrameLength, Codec.Decode, Execution, After;
    var s1 := Next(d, Init(), Start(0, 0));
    var s2 := Next(d, s1, Call);
    assert s2.client == Client.ConnectCalled(Client.Init()) && s2.poll == s1.poll && s1.poll.pending == [Poll.Connecting];
    DeadlineSlipsIn(d, s2);
    TwoMore(d, Init(), Start(0, 0), Call,
            [Strand(Client.Complete(true, false)), Strand(Client.Deadline(1, false)), Strand(Client.Handle)]);
  }

  lemma DeadlineSlipsIn(d: Device, s: State)
    requires Addressable(d) && s.client == Client.ConnectCalled(Client.Init())
    ensures var events := [Strand(Client.Complete(true, false)), Strand(Client.Deadline(1, false)), Strand(Client.Handle)];
            && Execution(d, s, events)
            && var t := After(d, s, events);
               && t.client.op == Client.Running(0, Client.ConnectJob, Client.Connect) && !Client.Covered(t.client)
               && t.poll == s.poll
  {
    hide Codec.ExpectedFrameLength, Codec.Decode, Execution, After, Poll.Enabled, Poll.Next;
    var e1, e2, e3 := Strand(Client.Complete(true, false)), Strand(Client.Deadline(1, false)), Strand(Client.Handle);
    var s1 := Next(d, s, e1);
    var s2 := Next(d, s1, e2);
    NoEvents(d, Next(d, s2, e3));
    OneMore(d, s2, e3, []);
    TwoMore(d, s, e1, e2, [e3]);
    assert [e1, e2] + [e3] == [e1, e2, e3];
  }

  lemma TwoMore(d: Device, s: State, e1: Event, e2: Event, rest: seq<Event>)
    requires Addressable(d) && Enabled(d, s, e1) && Enabled(d, Next(d, s, e1), e2)
    requires Execution(d, Next(d, Next(d, s, e1), e2), rest)
    ensures Execution(d, s, [e1, e2] + rest)
    ensures After(d, s, [e1, e2] + rest) == After(d, Next(d, Next(d, s, e1), e2), rest)
  {
    hide Enabled, Next, Execution, After;
    OneMore(d, Next(d, s, e1), e2, rest);
    OneMore(d, s, e1, [e2] + rest);
    assert [e1] + ([e2] + rest) == [e1, e2] + rest;
  }

  lemma NoEvents(d: Device, s: State)
    requires Addressable(d)
    ensures Execution(d, s, []) && After(d, s, []) == s
  {}

  lemma OneMore(d: Device, s: State, e: Event, rest: seq<Event>)
    requires Addressable(d) && Enabled(d, s, e) && Execution(d, Next(d, s, e), rest)
    ensures Execution(d, s, [e] + rest) && After(d, s, [e] + rest) == After(d, Next(d, s, e), rest)
    ensures rest == [] ==> [e] + rest == [e]
  {
    hide Enabled, Next;
    assert ([e] + rest)[1..] == rest;
  }

  lemma StepStalls(d: Device, s: State, e: Event)
    requires Addressable(d) && Inv(d, s) && Enabled(d, s, e)
    requires s.client.op.Running? && s.client.op.job.ConnectJob? && !Client.Covered(s.client)
    requires !e.Close? && (e.Strand? ==> !e.event.Complete?)
    ensures var t := Next(d, s, e);
            && t.client.op == s.client.op && !Client.Covered(t.client)
            && t.poll.pending == s.poll.pending && t.poll.journal == s.poll.journal
  {
    hide Poll.Inv, Client.Inv, Linked, Collected, CycleReads, Kinds, Poll.Enabled, Poll.Next, Client.Enabled,
         Client.Next, Client.Covered;
    OneUnheard(d, s);
    ClientFits(d, s, e);
    if PollEvent(s, e).Some? {
      PollFits(d, s, e);
      PollOnly(d, s, e);
      StepStops(d.setup, s.poll, PollEvent(s, e).value);
    } else {
      Client.HangsOn(s.client, ClientEvent(d, s, e).value);
    }
  }

  lemma OneUnheard(d: Device, s: State)
    requires Addressable(d) && Inv(d, s) && !s.client.op.Idle?
    ensures s.heard == |s.client.log.callbacks| && Waits(s.poll) && |s.poll.pending| == 1
  {
    hide Collected, CycleReads, Kinds, JobFits, Poll.Collecting, Poll.Faithful, Poll.StatusKnown, Poll.OnTime,
         Client.Streams, Client.Timers, Client.Delivered, Client.InOrder;
  }

  /** Whatever made it fail, a cycle that is given up publishes one error and then, unless that was
      said before, whether the client is connected at that moment: a device that answers with an
      exception stays online. */
  lemma FailedCycleReports(d: Device, s: State, stamp: int)
    requires Addressable(d) && Inv(d, s) && !s.poll.stopped && Enabled(d, s, Hear(stamp))
    requires var r := s.client.log.callbacks[s.heard].result; r.Error? || r == Client.Connected(false)
    ensures Poll.GivenUp(s.poll, Next(d, s, Hear(stamp)).poll, s.client.client.connected)
  {
    hide Poll.Inv, Client.Inv, Linked, Collected, CycleReads, Kinds, Poll.Next, Poll.Enabled, Poll.GivenUp;
    PollFits(d, s, Hear(stamp));
    var e := Told(s, stamp);
    if e.Connected? { Poll.ConnectLeadsOn(d.setup, s.poll, e); } else { Poll.ReplyLeadsOn(d.setup, s.poll, e); }
  }

  // ---------------------------------------------------------------------
  // From the device's registers to what is published
  // ---------------------------------------------------------------------

  /** The device answered call number `serial` with these registers, at least as many as block k
      asks for, under the transaction id of that call. */
  ghost predicate Answered(d: Device, log: Client.Log, serial: int, k: nat, registers: seq<u16>)
    requires k < |d.setup.blocks|
  {
    0 <= serial < |log.issued| && log.issued[serial].RequestJob?
    && exists a <- log.answers ::
         && a.serial == serial && var r := Codec.Decode(a.frame);
            && r.Some? && !r.value.isException && r.value.registers == registers
            && r.value.transactionId == log.issued[serial].request.transactionId
            && |registers| >= d.setup.blocks[k].quantity
  }

  lemma DeliveredIsAnswered(d: Device, s: Client.State, serial: int, k: nat, registers: seq<u16>)
    requires Addressable(d) && k < |d.setup.blocks| && Client.Inv(s) && Delivered(d, s.log, serial, k, registers)
    ensures Answered(d, s.log, serial, k, registers)
  {
    hide Codec.Decode, Client.Streams, Client.Timers, Client.InOrder;
    var c := s.log.callbacks[serial];
    assert c in s.log.callbacks && Client.Genuine(s.log, c);
    var a :| a in s.log.answers && Client.AnswersWith(a, c, s.log.issued[serial].request);
  }

  /** The finished cycles one after another, each the device's answers to consecutive calls. */
  ghost predicate CyclesAnswered(d: Device, s: State) {
    var n, cycles := |d.setup.blocks|, s.poll.journal.cycles;
    && |s.starts| == |cycles|
    && (forall b, c | 0 <= b < c < |cycles| :: s.starts[b] + n <= s.starts[c])
    && (forall c | 0 <= c < |cycles| :: |cycles[c].replies| == n)
    && (forall c, k | 0 <= c < |cycles| && 0 <= k < n ::
          Answered(d, s.client.log, s.starts[c] + k, k, cycles[c].replies[k]))
  }

  /** In every run, whatever the network and the device do: the readings published are, cycle by
      cycle, decoded from the device's own answers to that cycle's reads, block after block. */
  lemma PublishesAnswers(d: Device, events: seq<Event>) returns (batches: seq<seq<Poll.Publication>>)
    requires Addressable(d) && Execution(d, Init(), events)
    ensures var s := After(d, Init(), events);
            && CyclesAnswered(d, s)
            && |batches| == |s.poll.journal.cycles| && Poll.Readings(s.poll.journal.published) == Poll.Concat(batches)
            && forall c | 0 <= c < |batches| :: Poll.PublishesCycle(d.setup, s.poll.journal.cycles[c], batches[c])
  {
    hide Execution, After, Linked, Collected, Kinds, Answered, Delivered, Client.Inv,
         Poll.OnePending, Poll.Collecting, Poll.StatusKnown, Poll.OnTime, Poll.ReadingsOf, Poll.ValueAt,
         Poll.PublishesCycle, Poll.Readings, Poll.Concat, Poll.CycleReadings;
    RunsKeepInv(d, events);
    var s := After(d, Init(), events);
    batches := Poll.CyclesPublish(d.setup, s.poll.journal.cycles);
    forall c, k | 0 <= c < |s.starts| && 0 <= k < |d.setup.blocks|
      ensures Answered(d, s.client.log, s.starts[c] + k, k, s.poll.journal.cycles[c].replies[k])
    {
      assert Reads(d, s.client.log, s.starts[c], s.poll.journal.cycles[c].replies);
      DeliveredIsAnswered(d, s.client, s.starts[c] + k, k, s.poll.journal.cycles[c].replies[k]);
    }
  }

  /** `memories(n)` holds the device's registers when it answers call n; every answer is the
      conforming one out of them or one the client turns down. */
  ghost predicate Honest(log: Client.Log, memories: int -> Memory) {
    forall a <- log.answers :: a.serial < |log.issued| && log.issued[a.serial].RequestJob? ==>
      var request := log.issued[a.serial].request;
      || a.frame == Codec.ReplyFrame(Acquisition.Bounded(memories(a.serial), request))
      || Acquisition.Rejected(a.frame, request)
  }

  /** Against a device that does not lie, though its registers may change from one request to the
      next and any request may fail: a published cycle holds, for every sensor that had a value
      when its block was read, exactly that value, and for no other. */
  lemma PublishesTheDevice(d: Device, events: seq<Event>, memories: int -> Memory)
    returns (batches: seq<seq<Poll.Publication>>)
    requires Sound(d) && Execution(d, Init(), events)
    requires Honest(After(d, Init(), events).client.log, memories)
    ensures var s := After(d, Init(), events);
            && |batches| == |s.poll.journal.cycles| == |s.starts|
            && Poll.Readings(s.poll.journal.published) == Poll.Concat(batches)
            && forall c | 0 <= c < |batches| ::
                 MeasuresCycle(d, s.starts[c], s.poll.journal.cycles[c].stamp, batches[c], memories)
  {
    hide Execution, After, Answered, Honest, MeasuresCycle, Client.Inv, Linked, Collected, Kinds, Poll.Inv, Reads,
         Poll.PublishesCycle, Poll.Readings, Poll.Concat, CyclesAnswered;
    batches := PublishesAnswers(d, events);
    RunsKeepInv(d, events);
    var s := After(d, Init(), events);
    CycleCount(d, s);
    forall c | 0 <= c < |batches|
      ensures MeasuresCycle(d, s.starts[c], s.poll.journal.cycles[c].stamp, batches[c], memories)
    {
      CycleMeasures(d, s.client, s.starts[c], s.poll.journal.cycles[c], batches[c], memories);
    }
  }

  lemma CycleCount(d: Device, s: State)
    requires CyclesAnswered(d, s)
    ensures |s.starts| == |s.poll.journal.cycles|
  {}

  /** One reading for each sensor with a value, in configuration order, all with one timestamp. */
  ghost predicate MeasuresCycle(d: Device, start: int, stamp: int, batch: seq<Poll.Publication>,
                                memories: int -> Memory)
  {
    && (forall k | 0 <= k < |batch| :: batch[k].Reading? && batch[k].stamp == stamp)
    && (forall j, k | 0 <= j < k < |batch| :: batch[j].sensor < batch[k].sensor < |d.setup.sensors|)
    && (forall i: nat | i < |d.setup.sensors| :: SensorMeasured(d, start, stamp, batch, memories, i))
  }

  /** The sensor's reading is its value when the block that serves it was read. */
  ghost predicate SensorMeasured(d: Device, start: int, stamp: int, batch: seq<Poll.Publication>,
                                 memories: int -> Memory, i: nat)
    requires i < |d.setup.sensors|
  {
    exists k | 0 <= k < |d.setup.blocks| && i in d.setup.blocks[k].indices ::
      forall v :: Poll.Reading(i, v, stamp) in batch <==> DirectValue(memories(start + k), d.setup.sensors[i]) == Some(v)
  }

  lemma CycleMeasures(d: Device, s: Client.State, start: int, c: Poll.Cycle, batch: seq<Poll.Publication>,
                      memories: int -> Memory)
    requires Sound(d) && Client.Inv(s) && Honest(s.log, memories)
    requires |c.replies| == |d.setup.blocks| && Reads(d, s.log, start, c.replies)
    requires Poll.PublishesCycle(d.setup, c, batch)
    ensures MeasuresCycle(d, start, c.stamp, batch, memories)
  {
    hide Client.Inv, Honest, Poll.Planned, Poll.ValueAt, Delivered;
    forall i: nat | i < |d.setup.sensors| ensures SensorMeasured(d, start, c.stamp, batch, memories, i) {
      var k := Poll.BlockServing(d.setup, i);
      Poll.ValueFromItsBlock(d.setup, c.replies, k, i);
      assert Delivered(d, s.log, start + k, k, c.replies[k]);
      ReplyIsDirect(d, s, start + k, k, c.replies[k], memories, i);
    }
  }

  lemma ReplyIsDirect(d: Device, s: Client.State, serial: int, k: nat, registers: seq<u16>, memories: int -> Memory, i: nat)
    requires Sound(d) && Client.Inv(s) && Honest(s.log, memories)
    requires k < |d.setup.blocks| && i in d.setup.blocks[k].indices && i < |d.setup.sensors|
    requires Delivered(d, s.log, serial, k, registers)
    ensures ExtractValue(d.setup.blocks[k], registers, d.setup.sensors[i])
         == DirectValue(memories(serial), d.setup.sensors[i])
  {
    hide Client.Inv, Acquisition.Rejected, Codec.ReplyFrame, Exact;
    var b, job := d.setup.blocks[k], s.log.issued[serial];
    PlannedExact(d.setup, k);
    assert b in d.setup.blocks;
    Acquisition.DeliveredIsDirect(s, serial, d.setup.sensors, b, memories(serial), job.request.transactionId, d.unit);
  }

  lemma PlannedExact(p: Poll.Setup, k: nat)
    requires Poll.Planned(p) && k < |p.blocks|
    ensures Exact(p.sensors, p.blocks[k])
  {}

  // ---------------------------------------------------------------------
  // A cycle to which everything goes well
  // ---------------------------------------------------------------------

  function Strands(events: seq<Client.Event>): seq<Event> {
    if events == [] then [] else [Strand(events[0])] + Strands(events[1..])
  }

  /** What happens on the client's strand and on the network leaves the poller alone. */
  lemma {:induction false} StrandsRun(d: Device, s: State, events: seq<Client.Event>)
    requires Addressable(d) && Client.Execution(s.client, events)
    requires forall e <- events :: !e.CallConnect? && !e.CallRequest? && !e.CallClose?
    ensures Execution(d, s, Strands(events))
    ensures After(d, s, Strands(events)) == s.(client := Client.After(s.client, events))
    decreases |events|
  {
    hide Client.Enabled, Client.Next;
    if events != [] {
      var t := Next(d, s, Strand(events[0]));
      StrandsRun(d, t, events[1..]);
      OneMore(d, s, Strand(events[0]), Strands(events[1..]));
    }
  }

  lemma {:induction false} RunsJoin(d: Device, s: State, a: seq<Event>, b: seq<Event>)
    requires Addressable(d) && Execution(d, s, a) && Execution(d, After(d, s, a), b)
    ensures Execution(d, s, a + b) && After(d, s, a + b) == After(d, After(d, s, a), b)
    decreases |a|
  {
    hide Enabled, Next;
    if a == [] {
      assert a + b == b;
    } else {
      assert (a + b)[1..] == a[1..] + b;
      RunsJoin(d, Next(d, s, a[0]), a[1..], b);
    }
  }

  /** The client is connected, nothing is under way and nothing is unheard. */
  ghost predicate AtRest(s: State) {
    s.client.op.Idle? && s.client.client.connected && s.client.link.up && s.heard == |s.client.log.callbacks|
  }

  /** What the device answers to the read of block k that the client makes next. */
  function TrueAnswer(d: Device, s: State, k: nat, memory: Memory): Codec.Response
    requires Addressable(d) && k < |d.setup.blocks|
  {
    Answer(memory, ReadRequest(d.setup.blocks[k], s.client.client.nextId, d.unit))
  }

  /** The call runs, the answer comes, the poller hears of it. */
  function BlockSteps(frame: seq<byte>, stamp: int): seq<Event> {
    [Call] + (Strands(Client.AnswerSteps(frame)) + [Hear(stamp)])
  }

  lemma TrueAnswerFits(d: Device, s: State, k: nat, memory: Memory)
    requires Sound(d) && k < |d.setup.blocks|
    ensures var r, b := TrueAnswer(d, s, k, memory), d.setup.blocks[k];
            && Codec.ReadReply(r) && |r.registers| == b.quantity && r.transactionId == s.client.client.nextId
            && r.registers == ReadRange(memory, b.table, b.start, b.quantity)
  {
    var b := d.setup.blocks[k];
    PlannedExact(d.setup, k);
    assert b in d.setup.blocks;
    BatchedReadIsDirect(d.setup.sensors, b, memory, s.client.client.nextId, d.unit);
    hide Exact, Poll.Planned, Codec.ReplyFrame, Codec.Decode;
  }

  /** The posted read of a block is written as soon as it runs. */
  lemma ReadBegins(d: Device, s: State, k: nat)
    requires Sound(d) && Inv(d, s) && AtRest(s) && s.asked == Some(AskRead(k)) && k < |d.setup.blocks|
    ensures var b := d.setup.blocks[k];
            var request := ReadRequest(b, s.client.client.nextId, d.unit);
            && Enabled(d, s, Call)
            && var t := Next(d, s, Call);
               && t == s.(asked := None, client := t.client)
               && t.client.op == Client.Running(|s.client.log.issued|, Client.RequestJob(request), Client.Write)
               && t.client.link == Client.UP && t.client.client.connected
               && t.client.log == s.client.log.(issued := s.client.log.issued + [Client.RequestJob(request)])
  {
    hide Poll.Inv, Client.Inv, Linked, Collected, CycleReads, Kinds, Poll.Next, Poll.Enabled, Client.Next,
         Client.Enabled, Poll.Planned;
    var b := d.setup.blocks[k];
    assert b in d.setup.blocks;
    Client.RequestBegins(s.client, d.unit, ReadCode(b.table), b.start, b.quantity);
  }

  /** One block of a cycle: a conforming answer reaches the poller as the block's registers. */
  lemma BlockSucceeds(d: Device, s: State, k: nat, memory: Memory, stamp: int)
    requires Sound(d) && Inv(d, s) && AtRest(s) && s.asked == Some(AskRead(k)) && k < |d.setup.blocks|
    requires s.poll.pending != [] && s.poll.pending[0].Requesting? && !s.poll.stopped
    ensures var frame := Codec.ReplyFrame(TrueAnswer(d, s, k, memory));
            var b := d.setup.blocks[k];
            var told := Poll.Replied(Some(ReadRange(memory, b.table, b.start, b.quantity)), true, stamp);
            && Execution(d, s, BlockSteps(frame, stamp))
            && Poll.Enabled(d.setup, s.poll, told)
            && var t := After(d, s, BlockSteps(frame, stamp));
               && t.poll == Poll.Next(d.setup, s.poll, told) && Inv(d, t) && AtRest(t)
               && t.asked == AskOf(t.poll) && |t.client.log.issued| == |s.client.log.issued| + 1
  {
    hide Inv, Poll.Next, Poll.Enabled, Client.Next, Client.Enabled, Client.Execution, Client.After, Client.AnswerSteps,
         Codec.ReplyFrame, Execution, After, Poll.Planned, Strands, Answer, ReadRange;
    var b, r := d.setup.blocks[k], TrueAnswer(d, s, k, memory);
    TrueAnswerFits(d, s, k, memory);
    var frame, request := Codec.ReplyFrame(r), ReadRequest(b, s.client.client.nextId, d.unit);
    ReadBegins(d, s, k);
    var t := Next(d, s, Call);
    Client.ReadSucceeds(t.client, |s.client.log.issued|, request, r);
    NoCallsInAnswer(frame);
    var strands := Strands(Client.AnswerSteps(frame));
    StrandsRun(d, t, Client.AnswerSteps(frame));
    OneMore(d, s, Call, strands);
    RunInv(d, s, [Call] + strands);
    var u := After(d, t, strands);
    HeardNext(d, u, stamp);
    RunsJoin(d, t, strands, [Hear(stamp)]);
    OneMore(d, s, Call, strands + [Hear(stamp)]);
    RunInv(d, s, BlockSteps(frame, stamp));
  }

  lemma NoCallsInAnswer(frame: seq<byte>)
    ensures forall e <- Client.AnswerSteps(frame) :: !e.CallConnect? && !e.CallRequest? && !e.CallClose?
    ensures forall e <- Client.ConnectSteps() :: !e.CallConnect? && !e.CallRequest? && !e.CallClose?
  {}

  /** The poller hears of a callback that has just fired. */
  lemma HeardNext(d: Device, s: State, stamp: int)
    requires Addressable(d) && Inv(d, s) && s.heard + 1 == |s.client.log.callbacks|
    ensures Execution(d, s, [Hear(stamp)]) && Poll.Enabled(d.setup, s.poll, Told(s, stamp))
    ensures var t := After(d, s, [Hear(stamp)]);
            && t.poll == Poll.Next(d.setup, s.poll, Told(s, stamp)) && t.client == s.client
            && t.heard == |s.client.log.callbacks| && t.asked == AskOf(t.poll)
  {
    hide Poll.Inv, Client.Inv, Collected, CycleReads, Kinds, Poll.Next, Poll.Enabled, JobFits;
    PollFits(d, s, Hear(stamp));
    NoEvents(d, Next(d, s, Hear(stamp)));
    OneMore(d, s, Hear(stamp), []);
  }

  /** What the answers of one cycle are when each block is read from the registers as they are at
      its own call. */
  function Registers(d: Device, memories: int -> Memory, start: int, n: nat): (replies: seq<seq<u16>>)
    requires n <= |d.setup.blocks|
    ensures |replies| == n
  {
    seq(n, k requires 0 <= k < n =>
      var b := d.setup.blocks[k]; ReadRange(memories(start + k), b.table, b.start, b.quantity))
  }

  /** The poller has the answers to its first k blocks and is about to make the next read. */
  ghost predicate MidCycle(d: Device, s: State, memories: int -> Memory, start: int, k: nat) {
    && k < |d.setup.blocks| && |s.client.log.issued| == start + k
    && s.poll.replies == Registers(d, memories, start, k) && !s.poll.stopped
    && s.poll.pending != [] && s.poll.pending[0] == Poll.Requesting(k, Poll.ValuesAt(d.setup, s.poll.replies))
    && s.asked == Some(AskRead(k))
  }

  /** From there on, with conforming answers, the cycle is completed and published. */
  lemma {:induction false} CycleSucceeds(d: Device, s: State, memories: int -> Memory, start: int, k: nat, stamp: int)
    returns (events: seq<Event>)
    requires Sound(d) && Inv(d, s) && AtRest(s) && MidCycle(d, s, memories, start, k)
    ensures Execution(d, s, events)
    ensures var t := After(d, s, events);
            && Inv(d, t) && AtRest(t) && !t.poll.stopped
            && Poll.Completed(d.setup, s.poll, t.poll, Registers(d, memories, start, |d.setup.blocks|), stamp)
    decreases |d.setup.blocks| - k
  {
    hide Inv, Execution, After, Poll.Next, Poll.Enabled, Poll.Completed, Codec.ReplyFrame, Poll.Inv, Poll.ValuesAt;
    var memory, b := memories(start + k), d.setup.blocks[k];
    var frame := Codec.ReplyFrame(TrueAnswer(d, s, k, memory));
    TrueAnswerFits(d, s, k, memory);
    var told := Poll.Replied(Some(ReadRange(memory, b.table, b.start, b.quantity)), true, stamp);
    BlockSucceeds(d, s, k, memory, stamp);
    InvPolls(d, s);
    Poll.ReplyLeadsOn(d.setup, s.poll, told);
    var t := After(d, s, BlockSteps(frame, stamp));
    assert s.poll.replies + [told.result.value] == Registers(d, memories, start, k + 1);
    events := BlockSteps(frame, stamp);
    if k + 1 < |d.setup.blocks| {
      var rest := CycleSucceeds(d, t, memories, start, k + 1, stamp);
      RunsJoin(d, s, events, rest);
      events := events + rest;
      StillCompleted(d.setup, s.poll, t.poll, After(d, t, rest).poll, Registers(d, memories, start, |d.setup.blocks|), stamp);
    }
  }

  lemma InvPolls(d: Device, s: State)
    requires Addressable(d) && Inv(d, s)
    ensures Poll.Inv(d.setup, s.poll)
  {}

  lemma StillCompleted(p: Poll.Setup, s: Poll.State, u: Poll.State, t: Poll.State, replies: seq<seq<u16>>, stamp: int)
    requires |replies| == |p.blocks| && u.journal == s.journal && u.lastStatus == s.lastStatus
    requires Poll.Completed(p, u, t, replies, stamp)
    ensures Poll.Completed(p, s, t, replies, stamp)
  {}

  /** What the readings of a completed cycle say about the device. */
  lemma CompletedMeasures(d: Device, memories: int -> Memory, start: int, stamp: int)
    requires Sound(d)
    ensures MeasuresCycle(d, start, stamp,
                          Poll.ReadingsOf(Poll.ValuesAt(d.setup, Registers(d, memories, start, |d.setup.blocks|)),
                                          |d.setup.sensors|, stamp), memories)
  {
    hide Poll.Planned, Poll.ValueAt, Poll.ReadingsOf, Poll.ValuesAt;
    var replies := Registers(d, memories, start, |d.setup.blocks|);
    var c := Poll.Cycle(replies, stamp);
    Poll.OneCyclePublishes(d.setup, c);
    var batch := Poll.ReadingsOf(Poll.ValuesAt(d.setup, replies), |d.setup.sensors|, stamp);
    forall i: nat | i < |d.setup.sensors| ensures SensorMeasured(d, start, stamp, batch, memories, i) {
      var k := Poll.BlockServing(d.setup, i);
      Poll.ValueFromItsBlock(d.setup, replies, k, i);
      BlockMeasures(d, memories(start + k), k, i);
    }
  }

  lemma BlockMeasures(d: Device, memory: Memory, k: nat, i: nat)
    requires Sound(d) && k < |d.setup.blocks| && i in d.setup.blocks[k].indices && i < |d.setup.sensors|
    ensures var b, sensor := d.setup.blocks[k], d.setup.sensors[i];
            ExtractValue(b, ReadRange(memory, b.table, b.start, b.quantity), sensor) == DirectValue(memory, sensor)
  {
    hide Poll.Planned, ExtractValue, DirectValue, ReadRange;
    PlannedExact(d.setup, k);
    ExtractIsDirect(d.setup.sensors[i], d.setup.blocks[k], memory);
  }

  /** The step that begins a cycle on a connected client, and all that follows. */
  lemma BegunCycleSucceeds(d: Device, s: State, e: Event, memories: int -> Memory, stamp: int)
    returns (events: seq<Event>)
    requires Sound(d) && Inv(d, s) && Enabled(d, s, e) && !s.poll.stopped
    requires var t := Next(d, s, e);
             && AtRest(t) && !t.poll.stopped && t.asked == AskOf(t.poll)
             && Poll.WaitsForNext(d.setup, s.poll.(journal := s.poll.journal.(ticks := t.poll.journal.ticks)), t.poll,
                                  [], stamp)
    ensures Execution(d, s, events)
    ensures var t := After(d, s, events);
            var start := |Next(d, s, e).client.log.issued|;
            && Inv(d, t) && AtRest(t) && !t.poll.stopped
            && Poll.Completed(d.setup, s.poll.(journal := s.poll.journal.(ticks := Next(d, s, e).poll.journal.ticks)),
                              t.poll, Registers(d, memories, start, |d.setup.blocks|), stamp)
  {
    hide Inv, Execution, After, Enabled, Next, Poll.Completed, Poll.ValuesAt;
    StepInv(d, s, e);
    var t := Next(d, s, e);
    var start := |t.client.log.issued|;
    var base := s.poll.(journal := s.poll.journal.(ticks := t.poll.journal.ticks));
    assert Registers(d, memories, start, 0) == [];
    var rest: seq<Event> := [];
    NoEvents(d, t);
    if |d.setup.blocks| > 0 {
      rest := CycleSucceeds(d, t, memories, start, 0, stamp);
      StillCompleted(d.setup, base, t.poll, After(d, t, rest).poll, Registers(d, memories, start, |d.setup.blocks|), stamp);
    }
    OneMore(d, s, e, rest);
    events := [e] + rest;
  }

  /** A tick of a connected poller, with conforming answers: online, unless that was said before,
      and then the value every sensor has when its block is read, are published. */
  lemma TickPublishes(d: Device, s: State, memories: int -> Memory, now: nat, stamp: int)
    returns (events: seq<Event>, batch: seq<Poll.Publication>)
    requires Sound(d) && Inv(d, s) && AtRest(s) && !s.poll.stopped && s.poll.pending == [Poll.Timer]
    requires s.poll.clock <= now && s.poll.nextTick <= now
    ensures Execution(d, s, events)
    ensures var t := After(d, s, events);
            && t.poll.journal.published == s.poll.journal.published + Poll.News(s.poll, true) + batch
            && MeasuresCycle(d, |s.client.log.issued|, stamp, batch, memories)
            && |t.poll.journal.cycles| == |s.poll.journal.cycles| + 1
            && AtRest(t) && Inv(d, t) && t.poll.pending == [Poll.Scheduling] && !t.poll.stopped
  {
    hide Poll.Inv, Client.Inv, Collected, CycleReads, Kinds, Execution, After, Poll.Next, MeasuresCycle, Poll.ReadingsOf,
         Poll.ValuesAt, JobFits;
    var e := TimerFires(false, now, stamp);
    TickLeadsOn(d, s, now, stamp);
    events := BegunCycleSucceeds(d, s, e, memories, stamp);
    var start := |s.client.log.issued|;
    batch := Poll.ReadingsOf(Poll.ValuesAt(d.setup, Registers(d, memories, start, |d.setup.blocks|)),
                             |d.setup.sensors|, stamp);
    CompletedMeasures(d, memories, start, stamp);
  }

  lemma TickLeadsOn(d: Device, s: State, now: nat, stamp: int)
    requires Addressable(d) && Inv(d, s) && AtRest(s) && !s.poll.stopped && s.poll.pending == [Poll.Timer]
    requires s.poll.clock <= now && s.poll.nextTick <= now
    ensures var e := TimerFires(false, now, stamp);
            && Enabled(d, s, e)
            && var t := Next(d, s, e);
               && t.client == s.client && AtRest(t) && !t.poll.stopped && t.asked == AskOf(t.poll)
               && t.poll.journal.ticks == s.poll.journal.ticks
               && Poll.WaitsForNext(d.setup, s.poll, t.poll, [], stamp)
  {
    hide Poll.Inv, Client.Inv, Collected, CycleReads, Kinds, JobFits, Poll.Next, Poll.WaitsForNext;
    var x := Poll.TimerFires(false, now, true, stamp);
    Poll.CycleBegins(d.setup, s.poll, x);
    StepStops(d.setup, s.poll, x);
  }

  /** A poller that has to connect first, against a device that lets it and answers conformingly:
      the same is published. */
  lemma ConnectPublishes(d: Device, s: State, memories: int -> Memory, stamp: int)
    returns (events: seq<Event>, batch: seq<Poll.Publication>)
    requires Sound(d) && Inv(d, s) && !s.poll.stopped && s.asked == Some(AskConnect)
    ensures Execution(d, s, events)
    ensures var t := After(d, s, events);
            && t.poll.journal.published == s.poll.journal.published + Poll.News(s.poll, true) + batch
            && MeasuresCycle(d, |s.client.log.issued| + 1, stamp, batch, memories)
            && |t.poll.journal.cycles| == |s.poll.journal.cycles| + 1
            && AtRest(t) && Inv(d, t) && t.poll.pending == [Poll.Scheduling] && !t.poll.stopped
  {
    hide Inv, Execution, After, Next, Enabled, Poll.Next, Poll.Enabled, MeasuresCycle, Poll.ReadingsOf, Poll.ValuesAt,
         Client.Next, Client.Enabled, Client.Execution, Client.After, Client.ConnectSteps, Strands, Poll.WaitsForNext;
    ConnectBegins(d, s);
    var t := Next(d, s, Call);
    Client.ConnectSucceeds(t.client, |s.client.log.issued|);
    NoCallsInAnswer([]);
    var strands := Strands(Client.ConnectSteps());
    StrandsRun(d, t, Client.ConnectSteps());
    OneMore(d, s, Call, strands);
    RunInv(d, s, [Call] + strands);
    var u := After(d, t, strands);
    ConnectHeard(d, u, stamp);
    var rest := BegunCycleSucceeds(d, u, Hear(stamp), memories, stamp);
    RunsJoin(d, t, strands, rest);
    OneMore(d, s, Call, strands + rest);
    events := [Call] + (strands + rest);
    var start := |s.client.log.issued| + 1;
    batch := Poll.ReadingsOf(Poll.ValuesAt(d.setup, Registers(d, memories, start, |d.setup.blocks|)),
                             |d.setup.sensors|, stamp);
    CompletedMeasures(d, memories, start, stamp);
  }

  lemma ConnectBegins(d: Device, s: State)
    requires Addressable(d) && Inv(d, s) && s.asked == Some(AskConnect)
    ensures Enabled(d, s, Call)
    ensures var t := Next(d, s, Call);
            && t == s.(asked := None, client := t.client)
            && t.client.op == Client.Running(|s.client.log.issued|, Client.ConnectJob, Client.Resolve)
            && t.client.log == s.client.log.(issued := s.client.log.issued + [Client.ConnectJob])
            && s.heard == |s.client.log.callbacks| && s.poll.pending != [] && s.poll.pending[0].Connecting?
  {
    hide Poll.Inv, Client.Streams, Client.Timers, Client.Delivered, Client.InOrder, Collected, CycleReads, JobFits;
    ClientFits(d, s, Call);
  }

  lemma ConnectHeard(d: Device, s: State, stamp: int)
    requires Addressable(d) && Inv(d, s) && !s.poll.stopped && s.heard + 1 == |s.client.log.callbacks|
    requires s.client.log.callbacks[s.heard].result == Client.Connected(true)
    requires s.client.op.Idle? && s.client.client.connected && s.client.link.up
    ensures Enabled(d, s, Hear(stamp))
    ensures var t := Next(d, s, Hear(stamp));
            && AtRest(t) && !t.poll.stopped && t.asked == AskOf(t.poll) && t.client == s.client
            && Poll.WaitsForNext(d.setup, s.poll.(journal := s.poll.journal.(ticks := t.poll.journal.ticks)), t.poll,
                                 [], stamp)
  {
    hide Poll.Inv, Client.Inv, Linked, Collected, CycleReads, Kinds, Poll.Next, Poll.Enabled, Poll.WaitsForNext,
         Execution, After, Poll.OnTime, Poll.ReadingsOf;
    PollFits(d, s, Hear(stamp));
    HeardNext(d, s, stamp);
    NoEvents(d, Next(d, s, Hear(stamp)));
    OneMore(d, s, Hear(stamp), []);
    Poll.ConnectLeadsOn(d.setup, s.poll, Told(s, stamp));
    ConnectKeepsTicks(d.setup, s.poll, Told(s, stamp));
  }

  lemma ConnectKeepsTicks(p: Poll.Setup, s: Poll.State, e: Poll.Event)
    requires Poll.Inv(p, s) && Poll.Enabled(p, s, e) && e.Connected?
    ensures Poll.Next(p, s, e).journal.ticks == s.journal.ticks
  {
    hide Poll.Collecting, Poll.Faithful, Poll.StatusKnown, Poll.OnTime, Poll.Next;
    Poll.HandlersKeepTicks(p, s, e);
  }

  /** The whole way from a new poller: it starts, connects, reads every block and publishes online
      and the values of the device, one reading for each sensor that has one. */
  lemma FirstCyclePublishes(d: Device, memories: int -> Memory, now: nat, stamp: int)
    returns (events: seq<Event>, batch: seq<Poll.Publication>)
    requires Sound(d)
    ensures Execution(d, Init(), events)
    ensures After(d, Init(), events).poll.journal.published == [Poll.Status(true)] + batch
    ensures MeasuresCycle(d, 1, stamp, batch, memories)
  {
    hide Execution, After, Poll.Inv, Client.Inv, MeasuresCycle;
    InitInv(d);
    var e := Start(now, stamp);
    var s := Next(d, Init(), e);
    StepInv(d, Init(), e);
    var rest;
    rest, batch := ConnectPublishes(d, s, memories, stamp);
    OneMore(d, Init(), e, rest);
    events := [e] + rest;
  }
}
