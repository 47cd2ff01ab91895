/** The Modbus TCP client as an event-driven state machine: one request at a time over one
    connection, every operation guarded by a deadline timer whose handlers carry the generation
    they were armed with. The socket, the resolver, the timer and the device are events. */
module ModbusRuns {
  import opened Octets
  import opened Optional
  import Codec = FrameCodec

  // ---------------------------------------------------------------------
  // State
  // ---------------------------------------------------------------------

  /** The client's own fields. */
  datatype Client = Client(connected: bool, timedOut: bool, generation: nat, nextId: u16, readBuffer: seq<byte>)

  datatype Job = ConnectJob | RequestJob(request: Codec.Request)

  datatype Stage = Resolve | Connect | Write | Header | Body

  /** The one operation in progress: waiting for its completion, or with its completion queued
      for the strand. */
  datatype Op = Idle | Running(serial: nat, job: Job, stage: Stage) | Done(serial: nat, job: Job, stage: Stage, ok: bool)

  /** The TCP connection: requests the device has not answered, and answer bytes under way and
      received. */
  datatype Link = Link(up: bool, wire: seq<Sent>, outgoing: seq<byte>, inbound: seq<byte>)

  datatype Sent = Sent(serial: nat, request: Codec.Request)

  datatype Failure = NotConnected | WriteFailed | HeaderFailed | MalformedHeader | BodyFailed | Undecodable
                   | IdMismatch | DeviceException(code: byte) | ShortResponse

  datatype Result = Connected(ok: bool) | Registers(values: seq<u16>) | Error(failure: Failure)

  datatype Callback = Callback(serial: nat, result: Result)

  datatype Answer = Answer(serial: nat, frame: seq<byte>)

  /** What happened so far: every call made, every callback fired, every answer the device gave. */
  datatype Log = Log(issued: seq<Job>, callbacks: seq<Callback>, answers: seq<Answer>)

  datatype State = State(client: Client, link: Link, op: Op, waits: set<nat>, log: Log)

  const DOWN := Link(false, [], [], [])

  datatype Event =
    | CallConnect
    | CallRequest(unit: byte, operation: Codec.FunctionCode, start: u16, quantityOrValue: u16)
    | CallClose
    | Complete(ok: bool, reached: bool)
    | Handle
    | Deadline(generation: nat, aborted: bool)
    | DeviceAnswers(frame: seq<byte>)
    | Arrive(count: nat)

  function Init(): State {
    State(Client(false, false, 0, 1, []), DOWN, Idle, {}, Log([], [], []))
  }

  // ---------------------------------------------------------------------
  // What the client's functions do
  // ---------------------------------------------------------------------

  function Armed(s: State): State {
    var g := s.client.generation + 1;
    s.(client := s.client.(timedOut := false, generation := g), waits := s.waits + {g})
  }

  function Disarmed(s: State): State {
    s.(client := s.client.(generation := s.client.generation + 1))
  }

  /** Closing the socket fails whatever socket operation is under way. */
  function Aborted(op: Op): Op {
    if op.Running? && !op.stage.Resolve? then Done(op.serial, op.job, op.stage, false) else op
  }

  function Closed(s: State): State {
    s.(client := s.client.(connected := false), link := DOWN, op := Aborted(s.op))
  }

  /** The callback of the pending call fires. */
  function Fired(s: State, result: Result): State
    requires !s.op.Idle?
  {
    s.(op := Idle, log := s.log.(callbacks := s.log.callbacks + [Callback(s.op.serial, result)]))
  }

  function Failed(s: State, failure: Failure): State
    requires !s.op.Idle?
  {
    Fired(s, Error(failure))
  }

  /** A socket operation starts; on a closed socket it fails at once. */
  function Started(s: State, serial: nat, job: Job, stage: Stage): State {
    s.(op := if s.link.up then Running(serial, job, stage) else Done(serial, job, stage, false))
  }

  function Issued(s: State, job: Job): State { s.(log := s.log.(issued := s.log.issued + [job])) }

  function ConnectCalled(s: State): State {
    var t := Armed(Closed(Issued(s, ConnectJob)));
    t.(op := Running(|s.log.issued|, ConnectJob, Resolve))
  }

  function RequestCalled(s: State, unit: byte, operation: Codec.FunctionCode, start: u16, quantityOrValue: u16): State {
    var request := Codec.Request(s.client.nextId, unit, operation, start, quantityOrValue);
    var job := RequestJob(request);
    var serial := |s.log.issued|;
    var t := Issued(s, job).(client := s.client.(nextId := (s.client.nextId + 1) % 0x1_0000));
    if !s.client.connected then
      t.(log := t.log.(callbacks := t.log.callbacks + [Callback(serial, Error(NotConnected))]))
    else Started(Armed(t), serial, job, Write)
  }

  function CloseCalled(s: State): State { Closed(Disarmed(s)) }

  function DeadlineHandled(s: State, generation: nat, aborted: bool): State {
    var t := s.(waits := s.waits - {generation});
    if aborted || generation != s.client.generation then t
    else
      var u := t.(client := t.client.(timedOut := true));
      Closed(if u.op.Running? && u.op.stage.Resolve? then u.(op := Done(u.op.serial, u.op.job, Resolve, false)) else u)
  }

  function ResolveHandled(s: State): State
    requires s.op.Done?
  {
    if !s.op.ok then Fired(Disarmed(s), Connected(false))
    else s.(op := Running(s.op.serial, s.op.job, Connect))
  }

  function ConnectHandled(s: State): State
    requires s.op.Done?
  {
    var t := Disarmed(s);
    if !s.op.ok then Fired(Closed(t), Connected(false))
    else Fired(t.(client := t.client.(connected := true)), Connected(true))
  }

  function WriteHandled(s: State): State
    requires s.op.Done?
  {
    if !s.op.ok then Failed(Closed(Disarmed(s)), WriteFailed)
    else Started(s.(client := s.client.(readBuffer := [])), s.op.serial, s.op.job, Header)
  }

  function HeaderHandled(s: State): State
    requires s.op.Done?
  {
    if !s.op.ok then Failed(Closed(Disarmed(s)), HeaderFailed)
    else
      var total := Codec.ExpectedFrameLength(s.client.readBuffer);
      if total.None? || total.value < |s.client.readBuffer| + 1 || total.value > 7 + 253 then
        Failed(Closed(Disarmed(s)), MalformedHeader)
      else Started(s, s.op.serial, s.op.job, Body)
  }

  /** A read must bring at least the registers asked for. */
  function Checked(request: Codec.Request, values: seq<u16>): Result {
    if !request.operation.WriteSingle? && |values| < request.quantityOrValue then Error(ShortResponse)
    else Registers(values)
  }

  function BodyHandled(s: State): State
    requires s.op.Done? && s.op.job.RequestJob?
  {
    var t := Disarmed(s);
    if !s.op.ok then Failed(Closed(t), BodyFailed)
    else
      var response := Codec.Decode(s.client.readBuffer);
      if response.None? then Failed(Closed(t), Undecodable)
      else if response.value.transactionId != s.op.job.request.transactionId then Failed(Closed(t), IdMismatch)
      else if response.value.isException then Failed(t, DeviceException(response.value.exceptionCode))
      else Fired(t, Checked(s.op.job.request, response.value.registers))
  }

  function Handled(s: State): State
    requires s.op.Done? && (s.op.stage.Body? ==> s.op.job.RequestJob?)
  {
    match s.op.stage
    case Resolve => ResolveHandled(s)
    case Connect => ConnectHandled(s)
    case Write => WriteHandled(s)
    case Header => HeaderHandled(s)
    case Body => BodyHandled(s)
  }

  // ---------------------------------------------------------------------
  // What the environment does
  // ---------------------------------------------------------------------

  /** How many bytes the pending read waits for. */
  function Missing(s: State): nat {
    var total := Codec.ExpectedFrameLength(s.client.readBuffer);
    if s.op.Running? && s.op.stage.Body? && total.Some? && total.value >= |s.client.readBuffer|
    then total.value - |s.client.readBuffer| else Codec.HEADER
  }

  /** An operation completes: its effect is there, its handler is queued. A request whose
      write failed may or may not have reached the device. */
  function Completed(s: State, ok: bool, reached: bool): State
    requires s.op.Running? && (s.op.stage.Write? ==> s.op.job.RequestJob?)
  {
    var t := s.(op := Done(s.op.serial, s.op.job, s.op.stage, ok));
    match s.op.stage
    case Resolve => t
    case Connect => if ok then t.(link := Link(true, [], [], [])) else t
    case Write =>
      if ok || reached then t.(link := s.link.(wire := s.link.wire + [Sent(s.op.serial, s.op.job.request)])) else t
    case _ =>
      var n := Missing(s);
      if ok && n <= |s.link.inbound| then
        t.(client := s.client.(readBuffer := s.client.readBuffer + s.link.inbound[..n]),
           link := s.link.(inbound := s.link.inbound[n..]))
      else t
  }

  /** What the device sends in one answer is not longer than its header announces; it may be
      cut short, malformed, foreign or an exception. */
  predicate NotOverlong(frame: seq<byte>) {
    var total := Codec.ExpectedFrameLength(frame);
    total.None? || |frame| <= total.value
  }

  predicate Enabled(s: State, e: Event) {
    match e
    case CallConnect => s.op.Idle?
    case CallRequest(_, _, _, _) => s.op.Idle?
    case CallClose => true
    case Complete(ok, _) =>
      && s.op.Running?
      && (s.op.stage.Header? || s.op.stage.Body? ==> ok ==> Missing(s) <= |s.link.inbound|)
      && (s.op.stage.Write? ==> s.op.job.RequestJob?)
    case Handle => s.op.Done? && (s.op.stage.Body? ==> s.op.job.RequestJob?)
    case Deadline(g, aborted) => g in s.waits && (aborted ==> g != s.client.generation)
    case DeviceAnswers(frame) =>
      s.link.up && s.link.wire != [] && NotOverlong(frame)
    case Arrive(count) => s.link.up && count <= |s.link.outgoing|
  }

  function Next(s: State, e: Event): State
    requires Enabled(s, e)
  {
    match e
    case CallConnect => ConnectCalled(s)
    case CallRequest(unit, operation, start, quantityOrValue) => RequestCalled(s, unit, operation, start, quantityOrValue)
    case CallClose => CloseCalled(s)
    case Complete(ok, reached) => Completed(s, ok, reached)
    case Handle => Handled(s)
    case Deadline(g, aborted) => DeadlineHandled(s, g, aborted)
    case DeviceAnswers(frame) =>
      s.(link := s.link.(wire := s.link.wire[1..], outgoing := s.link.outgoing + frame),
         log := s.log.(answers := s.log.answers + [Answer(s.link.wire[0].serial, frame)]))
    case Arrive(count) =>
      s.(link := s.link.(outgoing := s.link.outgoing[count..], inbound := s.link.inbound + s.link.outgoing[..count]))
  }

  // ---------------------------------------------------------------------
  // Invariants
  // ---------------------------------------------------------------------

  predicate Quiet(link: Link) { link.wire == [] && link.outgoing == [] && link.inbound == [] }

  /** The device's answer to the pending request, of which the client has read `read`. */
  ghost predicate Answered(s: State, read: seq<byte>)
    requires !s.op.Idle?
  {
    var log := s.log.answers;
    && log != [] && log[|log| - 1].serial == s.op.serial
    && NotOverlong(log[|log| - 1].frame)
    && read <= log[|log| - 1].frame
    && (s.link.up ==> s.link.wire == [] && log[|log| - 1].frame == read + s.link.inbound + s.link.outgoing)
  }

  ghost predicate Waiting(s: State)
    requires !s.op.Idle? && s.op.job.RequestJob?
  {
    s.link.up && s.link.wire == [Sent(s.op.serial, s.op.job.request)] && s.link.outgoing == [] && s.link.inbound == []
  }

  /** What is on the connection, by the stage of the pending operation. */
  ghost predicate Streams(s: State) {
    && (!s.link.up ==> Quiet(s.link))
    && (s.op.Idle? || s.op.job.ConnectJob? ==> Quiet(s.link))
    && (!s.op.Idle? && s.op.job.ConnectJob? ==> s.op.stage.Resolve? || s.op.stage.Connect?)
    && (!s.op.Idle? && s.op.job.RequestJob? ==> RequestStreams(s))
  }

  ghost predicate RequestStreams(s: State)
    requires !s.op.Idle? && s.op.job.RequestJob?
  {
    var buffer := s.client.readBuffer;
    && !s.op.stage.Resolve? && !s.op.stage.Connect?
    && (s.op.Running? ==> s.link.up)
    && match s.op.stage {
         case Write =>
           if s.op.Running? then Quiet(s.link)
           else s.link.up ==> (Quiet(s.link) && !s.op.ok) || Waiting(s) || Answered(s, [])
         case Header =>
           if s.op.Done? && s.op.ok then |buffer| == Codec.HEADER && Answered(s, buffer)
           else buffer == [] && (s.link.up ==> Waiting(s) || Answered(s, []))
         case Body =>
           && Answered(s, buffer)
           && Codec.ExpectedFrameLength(s.log.answers[|s.log.answers| - 1].frame).Some?
           && (if s.op.Done? && s.op.ok then buffer == s.log.answers[|s.log.answers| - 1].frame
               else |buffer| == Codec.HEADER)
         case _ => false
       }
  }

  /** Whose deadlines can still go off. */
  ghost predicate Timers(s: State) {
    && (forall g <- s.waits :: g <= s.client.generation)
    && (s.op.Idle? ==> s.client.generation !in s.waits)
    && (!s.op.Idle? && s.op.job.RequestJob? && s.link.up ==> s.client.generation in s.waits)
  }

  /** Every call made has had its callback, once and in order, but for the one in progress. */
  ghost predicate Calls(s: State) {
    var issued, fired := s.log.issued, s.log.callbacks;
    && |fired| + (if s.op.Idle? then 0 else 1) == |issued|
    && (forall k | 0 <= k < |fired| :: fired[k].serial == k)
    && (!s.op.Idle? ==> s.op.serial == |fired| && s.op.job == issued[|fired|])
  }

  /** The callback of a request delivered registers: they are the device's answer to it. */
  ghost predicate Genuine(log: Log, c: Callback) {
    c.serial < |log.issued| && c.result.Registers? ==>
      log.issued[c.serial].RequestJob? && exists a <- log.answers :: AnswersWith(a, c, log.issued[c.serial].request)
  }

  ghost predicate AnswersWith(a: Answer, c: Callback, request: Codec.Request)
    requires c.result.Registers?
  {
    var r := Codec.Decode(a.frame);
    && a.serial == c.serial && r.Some? && !r.value.isException && r.value.transactionId == request.transactionId
    && r.value.registers == c.result.values
    && (!request.operation.WriteSingle? ==> |c.result.values| >= request.quantityOrValue)
  }

  ghost predicate Delivered(log: Log) {
    forall c <- log.callbacks :: Genuine(log, c)
  }

  /** The device answered each request at most once, in order. */
  ghost predicate InOrder(s: State) {
    var a := s.log.answers;
    && (forall j, k | 0 <= j < k < |a| :: a[j].serial < a[k].serial)
    && (forall k | 0 <= k < |a| :: a[k].serial < |s.log.issued|)
    && (s.link.wire != [] && a != [] ==> a[|a| - 1].serial < s.link.wire[0].serial)
    && (s.op.Running? && s.op.job.RequestJob? && s.op.stage.Write? && a != [] ==> a[|a| - 1].serial < s.op.serial)
  }

  ghost predicate Inv(s: State) {
    Streams(s) && Timers(s) && Calls(s) && Delivered(s.log) && InOrder(s)
  }

  // ---------------------------------------------------------------------
  // Every event keeps the invariants
  // ---------------------------------------------------------------------

  lemma SameAnnouncement(header: seq<byte>, frame: seq<byte>)
    requires |header| >= Codec.HEADER && header <= frame
    ensures Codec.ExpectedFrameLength(header) == Codec.ExpectedFrameLength(frame)
  {
    assert header[2..6] == frame[2..6];
  }

  lemma StreamsByCall(s: State, e: Event)
    requires Streams(s) && Enabled(s, e) && (e.CallConnect? || e.CallRequest? || e.CallClose? || e.Deadline?)
    ensures Streams(Next(s, e))
  {
    hide Codec.ExpectedFrameLength, Codec.Decode;
  }

  lemma StreamsByComplete(s: State, e: Event)
    requires Streams(s) && Enabled(s, e) && e.Complete?
    ensures Streams(Next(s, e))
  {
    if s.op.stage.Body? && e.ok {
      var frame := s.log.answers[|s.log.answers| - 1].frame;
      SameAnnouncement(s.client.readBuffer, frame);
    }
    hide Codec.ExpectedFrameLength;
  }

  lemma StreamsByHandle(s: State, e: Event)
    requires Streams(s) && Enabled(s, e) && e.Handle?
    ensures Streams(Next(s, e))
  {
    if s.op.stage.Header? && s.op.ok {
      SameAnnouncement(s.client.readBuffer, s.log.answers[|s.log.answers| - 1].frame);
    }
    hide Codec.ExpectedFrameLength, Codec.Decode;
  }

  lemma StreamsByArrival(s: State, e: Event)
    requires Streams(s) && Enabled(s, e) && e.Arrive?
    ensures Streams(Next(s, e))
  {
    hide Codec.ExpectedFrameLength, Codec.Decode, NotOverlong;
    var link := s.link;
    assert link.inbound + link.outgoing[..e.count] + link.outgoing[e.count..] == link.inbound + link.outgoing;
    if !s.op.Idle? && s.op.job.RequestJob? {
      AnsweredByArrival(s, e.count, []);
      AnsweredByArrival(s, e.count, s.client.readBuffer);
    }
  }

  /** Bytes that arrive leave what has been read, received and is under way the same together. */
  lemma AnsweredByArrival(s: State, count: nat, read: seq<byte>)
    requires Enabled(s, Arrive(count)) && !s.op.Idle?
    ensures Answered(s, read) ==> Answered(Next(s, Arrive(count)), read)
  {
    hide Codec.ExpectedFrameLength, Codec.Decode, NotOverlong;
    Rearrange(read, s.link.inbound, s.link.outgoing, count);
  }

  lemma Rearrange(read: seq<byte>, inbound: seq<byte>, outgoing: seq<byte>, n: nat)
    requires n <= |outgoing|
    ensures read + (inbound + outgoing[..n]) + outgoing[n..] == read + inbound + outgoing
  {}

  lemma StreamsByAnswer(s: State, e: Event)
    requires Streams(s) && Enabled(s, e) && e.DeviceAnswers?
    ensures Streams(Next(s, e))
  {
    hide Codec.ExpectedFrameLength;
    assert [] + s.link.inbound + e.frame == s.link.inbound + e.frame;
  }

  lemma StepStreams(s: State, e: Event)
    requires Streams(s) && Enabled(s, e)
    ensures Streams(Next(s, e))
  {
    hide Streams, Enabled, Next;
    match e
    case Complete(_, _) => StreamsByComplete(s, e);
    case Handle => StreamsByHandle(s, e);
    case DeviceAnswers(_) => StreamsByAnswer(s, e);
    case Arrive(_) => StreamsByArrival(s, e);
    case _ => StreamsByCall(s, e);
  }

  lemma TimersByHandle(s: State)
    requires Streams(s) && Timers(s) && Enabled(s, Handle)
    ensures Timers(Next(s, Handle))
  {
    hide Codec.ExpectedFrameLength, Codec.Decode;
  }

  lemma TimersByOthers(s: State, e: Event)
    requires Streams(s) && Timers(s) && Enabled(s, e) && !e.Handle?
    ensures Timers(Next(s, e))
  {
    hide Codec.ExpectedFrameLength, Answered;
  }

  lemma StepTimers(s: State, e: Event)
    requires Streams(s) && Timers(s) && Enabled(s, e)
    ensures Timers(Next(s, e))
  {
    hide Streams, Timers, Enabled, Next;
    if e.Handle? { TimersByHandle(s); } else { TimersByOthers(s, e); }
  }

  lemma StepCalls(s: State, e: Event)
    requires Calls(s) && Enabled(s, e)
    ensures Calls(Next(s, e))
  {
    hide Codec.ExpectedFrameLength, Codec.Decode;
  }

  lemma InOrderByHandle(s: State)
    requires Streams(s) && Calls(s) && InOrder(s) && Enabled(s, Handle)
    ensures InOrder(Next(s, Handle))
  {
    hide Codec.ExpectedFrameLength, Codec.Decode, Answered;
  }

  lemma InOrderByDevice(s: State, e: Event)
    requires Streams(s) && Calls(s) && InOrder(s) && Enabled(s, e) && (e.DeviceAnswers? || e.Arrive?)
    ensures InOrder(Next(s, e))
  {
    OneOnTheWire(s);
    hide Codec.ExpectedFrameLength, Streams;
  }

  /** At most one request is unanswered, and it is the pending one. */
  lemma OneOnTheWire(s: State)
    requires Streams(s)
    ensures |s.link.wire| <= 1
    ensures s.link.wire != [] ==> !s.op.Idle? && s.link.wire[0].serial == s.op.serial
    ensures s.link.wire != [] ==> !(s.op.Running? && s.op.stage.Write?)
  {
    hide Codec.ExpectedFrameLength;
  }

  lemma InOrderByOthers(s: State, e: Event)
    requires Streams(s) && Calls(s) && InOrder(s) && Enabled(s, e) && !e.Handle? && !e.DeviceAnswers? && !e.Arrive?
    ensures InOrder(Next(s, e))
  {
    hide Codec.ExpectedFrameLength, Answered;
  }

  lemma StepInOrder(s: State, e: Event)
    requires Streams(s) && Calls(s) && InOrder(s) && Enabled(s, e)
    ensures InOrder(Next(s, e))
  {
    hide Streams, Calls, InOrder, Enabled, Next;
    if e.Handle? { InOrderByHandle(s); }
    else if e.DeviceAnswers? || e.Arrive? { InOrderByDevice(s, e); }
    else { InOrderByOthers(s, e); }
  }

  /** A log only grows, and what was genuine stays so. */
  lemma GenuineStays(log: Log, later: Log, c: Callback)
    requires Genuine(log, c) && c.serial < |log.issued| && log.issued <= later.issued && log.answers <= later.answers
    ensures Genuine(later, c)
  {
    hide AnswersWith;
    if c.result.Registers? {
      var a :| a in log.answers && AnswersWith(a, c, log.issued[c.serial].request);
      assert a in later.answers;
    }
  }

  lemma LogGrows(s: State, e: Event)
    requires Enabled(s, e)
    ensures s.log.issued <= Next(s, e).log.issued && s.log.answers <= Next(s, e).log.answers
    ensures s.log.callbacks <= Next(s, e).log.callbacks
    ensures |Next(s, e).log.callbacks| <= |s.log.callbacks| + 1
    ensures !e.Handle? && |Next(s, e).log.callbacks| > |s.log.callbacks| ==>
              Next(s, e).log.callbacks[|s.log.callbacks|].result.Error?
  {
    hide Codec.ExpectedFrameLength, Codec.Decode;
  }

  /** The callback a handler fires with registers passes on the answer just read. */
  lemma HandledGenuine(s: State)
    requires Streams(s) && Calls(s) && Enabled(s, Handle)
    requires |Next(s, Handle).log.callbacks| > |s.log.callbacks|
    ensures Genuine(Next(s, Handle).log, Next(s, Handle).log.callbacks[|s.log.callbacks|])
  {
    hide Codec.ExpectedFrameLength, Codec.Decode;
    if s.op.stage.Body? {
      var a := s.log.answers[|s.log.answers| - 1];
      assert a in s.log.answers;
    }
  }

  lemma StepDelivered(s: State, e: Event)
    requires Streams(s) && Calls(s) && Delivered(s.log) && Enabled(s, e)
    ensures Delivered(Next(s, e).log)
  {
    LogGrows(s, e);
    if e.Handle? && |Next(s, e).log.callbacks| > |s.log.callbacks| {
      HandledGenuine(s);
    }
    hide Streams, Enabled, Next, Genuine;
    var log, later := s.log, Next(s, e).log;
    forall c | c in later.callbacks ensures Genuine(later, c) {
      var k :| 0 <= k < |later.callbacks| && later.callbacks[k] == c;
      if k < |log.callbacks| {
        assert log.callbacks[k] == c && c in log.callbacks;
        GenuineStays(log, later, c);
      } else if !e.Handle? {
        NotRegisters(later, c);
      }
    }
  }

  lemma NotRegisters(log: Log, c: Callback)
    requires c.result.Error?
    ensures Genuine(log, c)
  {}

  lemma StepInv(s: State, e: Event)
    requires Inv(s) && Enabled(s, e)
    ensures Inv(Next(s, e))
  {
    hide Streams, Timers, Calls, Delivered, InOrder, Enabled, Next;
    StepStreams(s, e);
    StepTimers(s, e);
    StepCalls(s, e);
    StepInOrder(s, e);
    StepDelivered(s, e);
  }

  /** A queued completion can always be handled. */
  lemma HandleInv(s: State)
    requires Inv(s) && s.op.Done?
    ensures Enabled(s, Handle) && Inv(Next(s, Handle)) && Next(s, Handle) == Handled(s)
  {
    hide Timers, Calls, Delivered, InOrder;
    StepInv(s, Handle);
  }

  // ---------------------------------------------------------------------
  // Whole runs
  // ---------------------------------------------------------------------

  predicate Execution(s: State, events: seq<Event>)
    decreases |events|
  {
    events == [] || (Enabled(s, events[0]) && Execution(Next(s, events[0]), events[1..]))
  }

  function After(s: State, events: seq<Event>): State
    requires Execution(s, events)
    decreases |events|
  {
    if events == [] then s else After(Next(s, events[0]), events[1..])
  }

  lemma {:induction false} RunInv(s: State, events: seq<Event>)
    requires Inv(s) && Execution(s, events)
    ensures Inv(After(s, events))
    decreases |events|
  {
    hide Inv, Enabled, Next;
    if events != [] {
      StepInv(s, events[0]);
      RunInv(Next(s, events[0]), events[1..]);
    }
  }

  lemma InitInv()
    ensures Inv(Init())
  {}

  /** In every run each call's callback fires at most once, in call order, with only the call
      in progress still waiting; and registers handed to a request's callback are exactly what
      the device answered to that request, at least as many as it asked for. */
  lemma RequestsMatchAnswers(events: seq<Event>)
    requires Execution(Init(), events)
    ensures var s := After(Init(), events);
            && |s.log.callbacks| + (if s.op.Idle? then 0 else 1) == |s.log.issued|
            && (forall k | 0 <= k < |s.log.callbacks| :: s.log.callbacks[k].serial == k)
            && (forall j, k | 0 <= j < k < |s.log.answers| :: s.log.answers[j].serial < s.log.answers[k].serial)
            && forall k | 0 <= k < |s.log.callbacks| :: Genuine(s.log, s.log.callbacks[k])
  {
    hide Execution, After, Genuine;
    InitInv();
    RunInv(Init(), events);
    var s := After(Init(), events);
    forall k | 0 <= k < |s.log.callbacks| ensures Genuine(s.log, s.log.callbacks[k]) {
      assert s.log.callbacks[k] in s.log.callbacks;
    }
  }

  /** A request is written only to a connection on which nothing is left over from before. */
  lemma WritesOnCleanConnection(s: State)
    requires Inv(s) && s.op.Running? && s.op.stage.Write?
    ensures s.link.up && Quiet(s.link)
  {
    hide Timers, Calls, Delivered, InOrder;
  }

  /** A late deadline handler touches nothing: one that closes the connection was armed for the
      operation now in progress, and none does while no operation is. */
  lemma StaleDeadlineHarmless(s: State, g: nat, aborted: bool)
    requires Inv(s) && Enabled(s, Deadline(g, aborted))
    ensures g < s.client.generation || s.op.Idle? ==>
              Next(s, Deadline(g, aborted)) == s.(waits := s.waits - {g})
  {
    hide Streams, Calls, Delivered, InOrder;
  }

  /** A request the device never answers still ends: its deadline is armed, and firing it gets
      the callback an error and the connection closed. */
  lemma TimeoutDelivers(s: State)
    requires Inv(s) && s.op.Running? && s.op.job.RequestJob?
    ensures Enabled(s, Deadline(s.client.generation, false))
    ensures var late := Next(s, Deadline(s.client.generation, false));
            && Enabled(late, Handle)
            && var ended := Next(late, Handle);
               && ended.op.Idle? && ended.client.timedOut && !ended.client.connected && ended.link == DOWN
               && |ended.log.callbacks| == |s.log.callbacks| + 1
               && ended.log.callbacks[|s.log.callbacks|].serial == s.op.serial
               && ended.log.callbacks[|s.log.callbacks|].result.Error?
  {
    hide Delivered, InOrder, Codec.ExpectedFrameLength, Codec.Decode;
  }

  /** How many more completions and handlers the pending call can take. */
  function Remaining(op: Op): nat {
    match op
    case Idle => 0
    case Running(_, _, stage) => Rank(stage)
    case Done(_, _, stage, ok) => if ok then Rank(stage) - 1 else 1
  }

  function Rank(stage: Stage): (r: nat)
    ensures r >= 2
  {
    match stage case Resolve => 8 case Connect => 6 case Write => 6 case Header => 4 case Body => 2
  }

  /** Every completion and every handler brings the pending call closer to its callback, nothing
      else takes it further away, and a queued completion can always be handled. */
  lemma PendingMovesOn(s: State, e: Event)
    requires Inv(s) && !s.op.Idle? && Enabled(s, e)
    ensures e.Complete? || e.Handle? ==> Remaining(Next(s, e).op) < Remaining(s.op)
    ensures !e.Complete? && !e.Handle? ==> Remaining(Next(s, e).op) <= Remaining(s.op)
    ensures s.op.Done? ==> Enabled(s, Handle)
    ensures s.op.Running? && s.op.job.RequestJob? ==> Enabled(s, Deadline(s.client.generation, false))
  {
    hide Calls, Delivered, InOrder, Codec.ExpectedFrameLength, Codec.Decode;
  }

  // ---------------------------------------------------------------------
  // What a complete answer leads to
  // ---------------------------------------------------------------------

  /** The request's answer has been read and its handler is queued. */
  predicate AnswerRead(s: State, serial: nat, request: Codec.Request) {
    s.op == Done(serial, RequestJob(request), Body, true)
  }

  /** The handler ends the call with this result and leaves the connection as it was. */
  ghost predicate EndsWith(s: State, result: Result) {
    && Enabled(s, Handle)
    && var t := Next(s, Handle);
       && t.op.Idle? && t.log == s.log.(callbacks := s.log.callbacks + [Callback(s.op.serial, result)])
       && t.link == s.link && t.waits == s.waits
       && t.client == s.client.(generation := s.client.generation + 1)
  }

  /** The handler ends the call with an error and closes the connection. */
  ghost predicate EndsClosed(s: State) {
    && Enabled(s, Handle)
    && var t := Next(s, Handle);
       && t.op.Idle? && t.link == DOWN && !t.client.connected
       && |t.log.callbacks| == |s.log.callbacks| + 1 && t.log.callbacks[..|s.log.callbacks|] == s.log.callbacks
       && t.log.callbacks[|s.log.callbacks|].serial == s.op.serial && t.log.callbacks[|s.log.callbacks|].result.Error?
  }

  /** A conforming read answer under the request's id is delivered register for register when it
      has as many as asked for, or more; only one with fewer is refused. */
  lemma ReadAnswerDelivered(s: State, serial: nat, request: Codec.Request, r: Codec.Response)
    requires AnswerRead(s, serial, request) && !request.operation.WriteSingle?
    requires Codec.ReadReply(r) && s.client.readBuffer == Codec.ReplyFrame(r) && r.transactionId == request.transactionId
    ensures |r.registers| >= request.quantityOrValue ==> EndsWith(s, Registers(r.registers))
    ensures |r.registers| < request.quantityOrValue ==> EndsWith(s, Error(ShortResponse))
  {
    Codec.ReplyRoundTrip(r);
    hide Codec.Decode, Codec.ReplyFrame;
  }

  /** A write's echo is delivered. */
  lemma WriteEchoDelivered(s: State, serial: nat, request: Codec.Request, unit: byte, address: u16, value: u16)
    requires AnswerRead(s, serial, request) && request.operation.WriteSingle?
    requires s.client.readBuffer == Codec.WriteFrame(request.transactionId, unit, address, value)
    ensures EndsWith(s, Registers([value]))
  {
    Codec.WriteRoundTrip(request.transactionId, unit, address, value);
    hide Codec.Decode, Codec.WriteFrame;
  }

  /** An exception answer is reported with its code, and the connection stays. */
  lemma ExceptionReported(s: State, serial: nat, request: Codec.Request, r: Codec.Response)
    requires AnswerRead(s, serial, request) && Codec.ExceptionReply(r)
    requires s.client.readBuffer == Codec.ReplyFrame(r) && r.transactionId == request.transactionId
    ensures EndsWith(s, Error(DeviceException(r.exceptionCode)))
  {
    Codec.ReplyRoundTrip(r);
    hide Codec.Decode, Codec.ReplyFrame;
  }

  /** An answer to some other request, or one that is no answer at all, costs the connection. */
  lemma ForeignAnswerCloses(s: State, serial: nat, request: Codec.Request)
    requires AnswerRead(s, serial, request)
    requires Codec.Decode(s.client.readBuffer).Some? ==>
               Codec.Decode(s.client.readBuffer).value.transactionId != request.transactionId
    ensures EndsClosed(s)
  {
    hide Codec.Decode;
  }

  // ---------------------------------------------------------------------
  // Transaction ids
  // ---------------------------------------------------------------------

  /** How many of the calls are requests. */
  function Requests(issued: seq<Job>): nat {
    if issued == [] then 0
    else Requests(issued[..|issued| - 1]) + if issued[|issued| - 1].RequestJob? then 1 else 0
  }

  /** Requests are numbered from 1 on, modulo 2^16, in call order, sent or not. */
  ghost predicate Numbered(s: State) {
    && s.client.nextId == (1 + Requests(s.log.issued)) % 0x1_0000
    && forall k | 0 <= k < |s.log.issued| && s.log.issued[k].RequestJob? ::
         s.log.issued[k].request.transactionId == (1 + Requests(s.log.issued[..k])) % 0x1_0000
  }

  lemma StepNumbered(s: State, e: Event)
    requires Enabled(s, e) && Numbered(s)
    ensures Numbered(Next(s, e))
  {
    hide Codec.ExpectedFrameLength, Codec.Decode, Requests;
    IssuedBy(s, e);
    var was, now := s.log.issued, Next(s, e).log.issued;
    if |now| > |was| {
      OneMoreRequest(was, now[|was|]);
      forall k | 0 <= k < |now| ensures k <= |was| && now[..k] == was[..k] {}
    }
  }

  lemma OneMoreRequest(issued: seq<Job>, job: Job)
    ensures Requests(issued + [job]) == Requests(issued) + if job.RequestJob? then 1 else 0
    ensures (issued + [job])[..|issued|] == issued
  {
    assert (issued + [job])[..|issued|] == issued;
  }

  lemma IssuedBy(s: State, e: Event)
    requires Enabled(s, e)
    ensures var t := Next(s, e);
            && (!e.CallConnect? && !e.CallRequest? ==> t.log.issued == s.log.issued)
            && (e.CallConnect? ==> t.log.issued == s.log.issued + [ConnectJob])
            && (e.CallRequest? ==>
                  && t.log.issued == s.log.issued + [RequestJob(Codec.Request(s.client.nextId, e.unit, e.operation, e.start,
                                                                               e.quantityOrValue))]
                  && t.client.nextId == (s.client.nextId + 1) % 0x1_0000)
            && (!e.CallRequest? ==> t.client.nextId == s.client.nextId)
  {
    hide Codec.ExpectedFrameLength, Codec.Decode;
  }

  lemma {:induction false} RunNumbered(s: State, events: seq<Event>)
    requires Numbered(s) && Execution(s, events)
    ensures Numbered(After(s, events))
    decreases |events|
  {
    hide Numbered, Enabled, Next;
    if events != [] {
      StepNumbered(s, events[0]);
      RunNumbered(Next(s, events[0]), events[1..]);
    }
  }

  /** So two requests in a run have the same id exactly when the number of requests from one to the
      other is a multiple of 2^16. */
  lemma SameIdExactly(events: seq<Event>, j: nat, k: nat)
    requires Execution(Init(), events)
    requires var issued := After(Init(), events).log.issued;
             j <= k < |issued| && issued[j].RequestJob? && issued[k].RequestJob?
    ensures var issued := After(Init(), events).log.issued;
            && Requests(issued[..j]) <= Requests(issued[..k])
            && (issued[j].request.transactionId == issued[k].request.transactionId <==>
                  (Requests(issued[..k]) - Requests(issued[..j])) % 0x1_0000 == 0)
  {
    hide Execution, After;
    RunNumbered(Init(), events);
    RequestsGrow(After(Init(), events).log.issued, j, k);
  }

  lemma {:induction false} RequestsGrow(issued: seq<Job>, j: nat, k: nat)
    requires j <= k <= |issued|
    ensures Requests(issued[..j]) <= Requests(issued[..k])
    decreases k
  {
    if j < k {
      RequestsGrow(issued, j, k - 1);
      assert issued[..k][..k - 1] == issued[..k - 1];
    }
  }

  // ---------------------------------------------------------------------
  // A call to which everything goes well
  // ---------------------------------------------------------------------

  lemma OneStep(s: State, e: Event, rest: seq<Event>)
    requires Enabled(s, e) && Execution(Next(s, e), rest)
    ensures Execution(s, [e] + rest) && After(s, [e] + rest) == After(Next(s, e), rest)
  {
    hide Enabled, Next;
    assert ([e] + rest)[1..] == rest;
  }

  lemma TwoSteps(s: State, d: Event, e: Event, rest: seq<Event>)
    requires Enabled(s, d) && Enabled(Next(s, d), e) && Execution(Next(Next(s, d), e), rest)
    ensures Execution(s, [d, e] + rest) && After(s, [d, e] + rest) == After(Next(Next(s, d), e), rest)
  {
    hide Enabled, Next, Execution, After;
    OneStep(Next(s, d), e, rest);
    OneStep(s, d, [e] + rest);
    assert [d] + ([e] + rest) == [d, e] + rest;
  }

  lemma NoSteps(s: State)
    ensures Execution(s, []) && After(s, []) == s
  {}

  const WENT_WELL := Complete(true, true)

  /** From the call on: the request is written, the device answers, the answer comes in and is
      read in two parts. */
  function AnswerSteps(frame: seq<byte>): seq<Event> {
    [WENT_WELL, Handle] + ([DeviceAnswers(frame), Arrive(|frame|)] + ([WENT_WELL, Handle] + ([WENT_WELL, Handle] + [])))
  }

  const UP := Link(true, [], [], [])

  lemma RequestWritten(s: State, serial: nat, request: Codec.Request)
    requires s.op == Running(serial, RequestJob(request), Write) && s.link == UP
    ensures Enabled(s, WENT_WELL) && Enabled(Next(s, WENT_WELL), Handle)
    ensures Next(Next(s, WENT_WELL), Handle)
         == s.(op := Running(serial, RequestJob(request), Header), link := UP.(wire := [Sent(serial, request)]),
               client := s.client.(readBuffer := []))
  {
    hide Codec.ExpectedFrameLength;
  }

  lemma AnswerComesIn(s: State, sent: Sent, frame: seq<byte>)
    requires s.link == UP.(wire := [sent]) && NotOverlong(frame)
    ensures Enabled(s, DeviceAnswers(frame)) && Enabled(Next(s, DeviceAnswers(frame)), Arrive(|frame|))
    ensures Next(Next(s, DeviceAnswers(frame)), Arrive(|frame|))
         == s.(link := UP.(inbound := frame), log := s.log.(answers := s.log.answers + [Answer(sent.serial, frame)]))
  {
    hide Codec.ExpectedFrameLength;
    assert [sent][1..] == [] && [] + frame == frame && frame[..|frame|] == frame && frame[|frame|..] == [];
  }

  lemma HeaderRead(s: State, serial: nat, request: Codec.Request, frame: seq<byte>)
    requires s.op == Running(serial, RequestJob(request), Header) && s.client.readBuffer == []
    requires s.link == UP.(inbound := frame) && Codec.ExpectedFrameLength(frame) == Some(|frame|)
    ensures Enabled(s, WENT_WELL) && Enabled(Next(s, WENT_WELL), Handle)
    ensures Next(Next(s, WENT_WELL), Handle)
         == s.(op := Running(serial, RequestJob(request), Body), link := UP.(inbound := frame[Codec.HEADER..]),
               client := s.client.(readBuffer := frame[..Codec.HEADER]))
  {
    SameAnnouncement(frame[..Codec.HEADER], frame);
    assert [] + frame[..Codec.HEADER] == frame[..Codec.HEADER];
  }

  lemma BodyRead(s: State, serial: nat, request: Codec.Request, frame: seq<byte>)
    requires s.op == Running(serial, RequestJob(request), Body) && Codec.ExpectedFrameLength(frame) == Some(|frame|)
    requires s.client.readBuffer == frame[..Codec.HEADER] && s.link == UP.(inbound := frame[Codec.HEADER..])
    ensures Enabled(s, WENT_WELL)
    ensures Next(s, WENT_WELL)
         == s.(op := Done(serial, RequestJob(request), Body, true), link := UP,
               client := s.client.(readBuffer := frame))
  {
    SameAnnouncement(frame[..Codec.HEADER], frame);
    var rest := frame[Codec.HEADER..];
    assert frame[..Codec.HEADER] + rest == frame && rest[..|rest|] == rest && rest[|rest|..] == [];
    hide Codec.ExpectedFrameLength;
  }

  /** A read the device answers conformingly ends with its registers delivered, on a connection
      ready for the next. */
  lemma ReadSucceeds(s: State, serial: nat, request: Codec.Request, r: Codec.Response)
    requires s.op == Running(serial, RequestJob(request), Write) && s.link == UP && !request.operation.WriteSingle?
    requires Codec.ReadReply(r) && r.transactionId == request.transactionId
    requires |r.registers| >= request.quantityOrValue
    ensures var frame := Codec.ReplyFrame(r);
            && Execution(s, AnswerSteps(frame))
            && After(s, AnswerSteps(frame))
            == s.(op := Idle, client := s.client.(readBuffer := frame, generation := s.client.generation + 1),
                  log := s.log.(callbacks := s.log.callbacks + [Callback(serial, Registers(r.registers))],
                                answers := s.log.answers + [Answer(serial, frame)]))
  {
    hide Execution, After, Next, Enabled, Codec.ReplyFrame, Codec.ExpectedFrameLength, Codec.Decode;
    var frame := Codec.ReplyFrame(r);
    ReplyAnnounced(r);
    RequestWritten(s, serial, request);
    var a := Next(Next(s, WENT_WELL), Handle);
    AnswerComesIn(a, Sent(serial, request), frame);
    var b := Next(Next(a, DeviceAnswers(frame)), Arrive(|frame|));
    HeaderRead(b, serial, request, frame);
    var c := Next(Next(b, WENT_WELL), Handle);
    BodyRead(c, serial, request, frame);
    ReadAnswerDelivered(Next(c, WENT_WELL), serial, request, r);
    NoSteps(Next(Next(c, WENT_WELL), Handle));
    TwoSteps(c, WENT_WELL, Handle, []);
    TwoSteps(b, WENT_WELL, Handle, [WENT_WELL, Handle] + []);
    TwoSteps(a, DeviceAnswers(frame), Arrive(|frame|), [WENT_WELL, Handle] + ([WENT_WELL, Handle] + []));
    TwoSteps(s, WENT_WELL, Handle,
             [DeviceAnswers(frame), Arrive(|frame|)] + ([WENT_WELL, Handle] + ([WENT_WELL, Handle] + [])));
  }

  lemma ReplyAnnounced(r: Codec.Response)
    requires Codec.ReadReply(r)
    ensures Codec.ExpectedFrameLength(Codec.ReplyFrame(r)) == Some(|Codec.ReplyFrame(r)|)
    ensures NotOverlong(Codec.ReplyFrame(r))
  {
    Codec.ReplyRoundTrip(r);
    hide Codec.ReplyFrame;
  }

  /** A request on an open, quiet connection is being written at once. */
  lemma RequestBegins(s: State, unit: byte, operation: Codec.FunctionCode, start: u16, quantityOrValue: u16)
    requires Inv(s) && s.op.Idle? && s.client.connected && s.link.up
    ensures var e := CallRequest(unit, operation, start, quantityOrValue);
            var request := Codec.Request(s.client.nextId, unit, operation, start, quantityOrValue);
            && Enabled(s, e)
            && var t := Next(s, e);
               && t.op == Running(|s.log.issued|, RequestJob(request), Write) && t.link == UP && t.client.connected
               && t.client.generation in t.waits && !t.client.timedOut
               && t.log == s.log.(issued := s.log.issued + [RequestJob(request)])
  {
    hide Timers, Calls, Delivered, InOrder;
  }

  function ConnectSteps(): seq<Event> { [WENT_WELL, Handle] + ([WENT_WELL, Handle] + []) }

  /** A connect to which nothing happens leaves the client connected and ready. */
  lemma ConnectSucceeds(s: State, serial: nat)
    requires s.op == Running(serial, ConnectJob, Resolve)
    ensures Execution(s, ConnectSteps())
    ensures After(s, ConnectSteps())
         == s.(op := Idle, link := UP, client := s.client.(connected := true, generation := s.client.generation + 1),
               log := s.log.(callbacks := s.log.callbacks + [Callback(serial, Connected(true))]))
  {
    hide Execution, After, Codec.ExpectedFrameLength, Codec.Decode;
    var a := Next(Next(s, WENT_WELL), Handle);
    NoSteps(Next(Next(a, WENT_WELL), Handle));
    TwoSteps(a, WENT_WELL, Handle, []);
    TwoSteps(s, WENT_WELL, Handle, [WENT_WELL, Handle] + []);
  }

  // ---------------------------------------------------------------------
  // Where a connect escapes its deadline, and close does not hold
  // ---------------------------------------------------------------------

  /** A connect that still has to wait for the network waits under an armed deadline. */
  predicate Covered(s: State) {
    !s.op.Idle? && s.op.job.ConnectJob? && (s.op.Running? || (s.op.stage.Resolve? && s.op.ok)) ==>
      s.client.generation in s.waits
  }

  /** A close while the name is being resolved, or a close or the deadline when it has been but the
      handler has not run: neither stops the connect, and no deadline is left to do so. */
  predicate Slips(s: State, e: Event) {
    && !s.op.Idle? && s.op.job.ConnectJob? && s.op.stage.Resolve?
    && if s.op.Running? then e.CallClose? else s.op.ok && (e.CallClose? || e == Deadline(s.client.generation, false))
  }

  /** Every connect starts under a deadline, and is left without one exactly by these events. */
  lemma CoveredExactlyUnless(s: State, e: Event)
    requires Inv(s) && Covered(s) && Enabled(s, e)
    ensures Covered(Next(s, e)) <==> !Slips(s, e)
  {
    hide Calls, Delivered, InOrder, Answered, Codec.ExpectedFrameLength, Codec.Decode;
  }

  /** The connect in progress has a deadline in every state of the run. */
  predicate AlwaysCovered(s: State, events: seq<Event>)
    requires Execution(s, events)
    decreases |events|
  {
    Covered(s) && (events != [] ==> AlwaysCovered(Next(s, events[0]), events[1..]))
  }

  /** Some event of the run slips. */
  predicate SomeSlips(s: State, events: seq<Event>)
    requires Execution(s, events)
    decreases |events|
  {
    events != [] && (Slips(s, events[0]) || SomeSlips(Next(s, events[0]), events[1..]))
  }

  /** In every run, every connect has a deadline all along if and only if no event slips. */
  lemma {:induction false} AlwaysCoveredExactlyUnless(s: State, events: seq<Event>)
    requires Inv(s) && Covered(s) && Execution(s, events)
    ensures AlwaysCovered(s, events) <==> !SomeSlips(s, events)
    decreases |events|
  {
    hide Inv, Covered, Slips, Enabled, Next;
    if events != [] {
      CoveredExactlyUnless(s, events[0]);
      StepInv(s, events[0]);
      if Slips(s, events[0]) {
        assert !Covered(Next(s, events[0]));
      } else {
        AlwaysCoveredExactlyUnless(Next(s, events[0]), events[1..]);
      }
    }
  }

  /** A connect without a deadline waits as long as the network does: only its own completion or
      a close changes that. */
  lemma {:induction false} UncoveredHangs(s: State, events: seq<Event>)
    requires Inv(s) && s.op.Running? && s.op.job.ConnectJob? && !Covered(s) && Execution(s, events)
    requires forall e <- events :: !e.Complete? && !e.CallClose?
    ensures After(s, events).op == s.op
    decreases |events|
  {
    if events != [] {
      HangsOn(s, events[0]);
      StepInv(s, events[0]);
      hide Inv, Covered, Enabled, Next;
      UncoveredHangs(Next(s, events[0]), events[1..]);
    }
  }

  lemma HangsOn(s: State, e: Event)
    requires Inv(s) && s.op.Running? && s.op.job.ConnectJob? && !Covered(s) && Enabled(s, e)
    requires !e.Complete? && !e.CallClose?
    ensures Next(s, e).op == s.op && !Covered(Next(s, e))
  {
    hide Calls, Delivered, InOrder, Answered, Codec.ExpectedFrameLength, Codec.Decode;
  }

  /** Runs of a new client that reach both kinds of slip: a close while the name is resolved, and
      the deadline going off when it has been but the handler has not run. */
  function CloseSlips(): seq<Event> { [CallConnect, CallClose, Complete(true, false), Handle] }

  function DeadlineSlips(): seq<Event> { [CallConnect, Complete(true, false), Deadline(1, false), Handle] }

  lemma SlipsHappen(events: seq<Event>)
    requires events == CloseSlips() || events == DeadlineSlips()
    ensures Execution(Init(), events) && SomeSlips(Init(), events)
    ensures var s := After(Init(), events);
            s.op == Running(0, ConnectJob, Connect) && s.client.generation !in s.waits && !Covered(s)
  {
    hide Codec.ExpectedFrameLength, Codec.Decode;
    var a, b := Next(Init(), events[0]), Next(Next(Init(), events[0]), events[1]);
    var c, d := Next(b, events[2]), Next(Next(b, events[2]), events[3]);
    assert events[1..] == [events[1], events[2], events[3]];
    assert events[1..][1..] == [events[2], events[3]] && events[1..][1..][1..] == [events[3]];
    assert events[1..][1..][1..][1..] == [];
    assert Execution(d, []) && After(d, []) == d;
    assert Execution(c, [events[3]]) && After(c, [events[3]]) == d;
    assert Execution(b, events[1..][1..]) && After(b, events[1..][1..]) == d;
    assert Execution(a, events[1..]) && After(a, events[1..]) == d;
  }

  /** Under its deadline a connect that hangs still ends: its callback is told that it failed. */
  lemma ConnectTimesOut(s: State)
    requires Inv(s) && Covered(s) && s.op.Running? && s.op.job.ConnectJob?
    ensures Enabled(s, Deadline(s.client.generation, false))
    ensures var late := Next(s, Deadline(s.client.generation, false));
            && Enabled(late, Handle)
            && var ended := Next(late, Handle);
               && ended.op.Idle? && ended.client.timedOut && !ended.client.connected
               && ended.log.callbacks == s.log.callbacks + [Callback(s.op.serial, Connected(false))]
  {
    hide Calls, Delivered, InOrder, Codec.ExpectedFrameLength, Codec.Decode;
  }

  /** A connect that close does not stop: still resolving, or its last handler already queued. */
  predicate Opening(op: Op) {
    && !op.Idle? && op.job.ConnectJob?
    && if op.stage.Resolve? then op.Running? || op.ok else op.Done? && op.ok
  }

  ghost predicate NoConnects(events: seq<Event>) { forall e <- events :: !e.CallConnect? }

  /** After close, and until the next connect call, the client stays disconnected in every run if
      and only if no such connect was in progress. */
  lemma CloseHoldsExactly(s: State)
    requires Inv(s)
    ensures (forall events | Execution(CloseCalled(s), events) && NoConnects(events) ::
               !After(CloseCalled(s), events).client.connected) <==> !Opening(s.op)
  {
    hide Execution, After;
    if Opening(s.op) {
      var events := Reconnects(CloseCalled(s));
    } else {
      ShutByClose(s);
      forall events | Execution(CloseCalled(s), events) && NoConnects(events)
        ensures !After(CloseCalled(s), events).client.connected
      {
        StaysShut(CloseCalled(s), events);
      }
    }
  }

  /** Disconnected, with no connect that could still succeed. */
  predicate Shut(s: State) {
    && !s.client.connected && !s.link.up
    && (!s.op.Idle? && s.op.job.ConnectJob? ==> s.op.Done? && !s.op.ok)
    && (!s.op.Idle? && s.op.job.RequestJob? ==> s.op.Done? && !s.op.stage.Resolve? && !s.op.stage.Connect?)
  }

  lemma ShutByClose(s: State)
    requires Inv(s) && !Opening(s.op)
    ensures Shut(CloseCalled(s))
  {
    hide Timers, Calls, Delivered, InOrder, Answered, Codec.ExpectedFrameLength, Codec.Decode;
  }

  lemma {:induction false} StaysShut(s: State, events: seq<Event>)
    requires Shut(s) && Execution(s, events) && NoConnects(events)
    ensures !After(s, events).client.connected
    decreases |events|
  {
    if events != [] {
      StepShut(s, events[0]);
      hide Enabled, Next;
      StaysShut(Next(s, events[0]), events[1..]);
    }
  }

  lemma StepShut(s: State, e: Event)
    requires Shut(s) && Enabled(s, e) && !e.CallConnect?
    ensures Shut(Next(s, e))
  {
    hide Codec.ExpectedFrameLength, Codec.Decode;
  }

  /** A connect that nothing disturbs succeeds. */
  lemma {:induction false} Reconnects(s: State) returns (events: seq<Event>)
    requires !s.op.Idle? && s.op.job.ConnectJob? && (s.op.stage.Resolve? || s.op.stage.Connect?)
    requires s.op.Running? || s.op.ok
    ensures Execution(s, events) && NoConnects(events) && After(s, events).client.connected
    decreases Remaining(s.op)
  {
    hide Codec.ExpectedFrameLength, Codec.Decode;
    var e := if s.op.Running? then Complete(true, false) else Handle;
    var rest := [];
    if s.op.Running? || s.op.stage.Resolve? {
      rest := Reconnects(Next(s, e));
    }
    events := [e] + rest;
    assert events[1..] == rest;
  }

  /** The failing side happens: right after a new client's connect call, a close does not hold. */
  lemma CloseFails()
    ensures Enabled(Init(), CallConnect)
    ensures var s := Next(Init(), CallConnect);
            && Inv(s) && Opening(s.op)
            && exists events :: Execution(CloseCalled(s), events) && NoConnects(events)
                                && After(CloseCalled(s), events).client.connected
  {
    var s := Next(Init(), CallConnect);
    InitInv();
    StepInv(Init(), CallConnect);
    CloseHoldsExactly(s);
    hide Execution, After, Inv;
  }
}
