/** The device poller as an event-driven state machine: connect if needed, read the planned
    blocks one after another, publish, schedule the next cycle. The client, both clocks and the
    timer are events. */
module PollRuns {
  import opened Octets
  import opened Optional
  import opened Sensors
  import opened ReadPlanner
  import opened RegisterDecode
  import Sequences

  // ---------------------------------------------------------------------
  // State
  // ---------------------------------------------------------------------

  datatype Setup = Setup(sensors: seq<Sensor>, blocks: seq<ReadBlock>, interval: nat)

  type Values = seq<Option<real>>

  /** What the poller waits for, or, for Scheduling, has left to do in the handler it is in. */
  datatype Task = Timer | Connecting | Requesting(block: nat, values: Values) | Scheduling

  datatype Publication = Status(online: bool) | Reading(sensor: nat, value: real, stamp: int) | PollError

  /** A scheduled tick, and the time it was scheduled at. */
  datatype Tick = Tick(at: nat, now: nat)

  /** The answers to all blocks of a finished cycle, and its timestamp. */
  datatype Cycle = Cycle(replies: seq<seq<u16>>, stamp: int)

  /** The poller's fields, what it waits for, and what happened so far. */
  datatype State = State(nextTick: nat, lastStatus: Option<bool>, stopped: bool, pending: seq<Task>,
                         clock: nat, replies: seq<seq<u16>>, journal: Journal)

  datatype Journal = Journal(published: seq<Publication>, ticks: seq<Tick>, cycles: seq<Cycle>)

  datatype Event =
    | Start(now: nat, connected: bool, stamp: int)
    | Stop
    | TimerFires(aborted: bool, now: nat, connected: bool, stamp: int)
    | Connected(ok: bool, connected: bool, stamp: int)
    | Replied(result: Option<seq<u16>>, connected: bool, stamp: int)
    | Schedule(now: nat)

  function Init(): State { State(0, None, false, [], 0, [], Journal([], [], [])) }

  // ---------------------------------------------------------------------
  // What the poller's functions do
  // ---------------------------------------------------------------------

  function Published(s: State, what: seq<Publication>): State {
    s.(journal := s.journal.(published := s.journal.published + what))
  }

  function StatusPublished(s: State, online: bool): State {
    if s.lastStatus == Some(online) then s else Published(s.(lastStatus := Some(online)), [Status(online)])
  }

  /** One reading for each of the first n sensors that has a value, in configuration order. */
  function ReadingsOf(values: Values, n: nat, stamp: int): seq<Publication>
    requires n <= |values|
  {
    if n == 0 then []
    else ReadingsOf(values, n - 1, stamp)
         + (if values[n - 1].Some? then [Reading(n - 1, values[n - 1].value, stamp)] else [])
  }

  function CycleFinished(s: State, values: Values, stamp: int): State {
    var t := Published(StatusPublished(s, true), ReadingsOf(values, |values|, stamp));
    t.(pending := t.pending + [Scheduling], replies := [],
       journal := t.journal.(cycles := t.journal.cycles + [Cycle(s.replies, stamp)]))
  }

  function CycleFailed(s: State, connected: bool): State {
    var t := StatusPublished(Published(s, [PollError]), connected);
    t.(pending := t.pending + [Scheduling], replies := [])
  }

  function BlockRead(p: Setup, s: State, block: nat, values: Values, stamp: int): State {
    if block >= |p.blocks| then CycleFinished(s, values, stamp)
    else s.(pending := s.pending + [Requesting(block, values)])
  }

  function Nothing(p: Setup): Values { seq(|p.sensors|, _ => None) }

  function CycleRun(p: Setup, s: State, connected: bool, stamp: int): State {
    if s.stopped then s
    else if !connected then s.(pending := s.pending + [Connecting])
    else BlockRead(p, s, 0, Nothing(p), stamp)
  }

  /** The values after a block's answer came in. */
  function Updated(p: Setup, b: ReadBlock, values: Values, registers: seq<u16>): Values
    requires |values| == |p.sensors|
  {
    seq(|values|, i requires 0 <= i < |values| =>
      if i in b.indices then ExtractValue(b, registers, p.sensors[i]) else values[i])
  }

  function ReplyHandled(p: Setup, s: State, block: nat, values: Values, result: Option<seq<u16>>,
                        connected: bool, stamp: int): State
    requires block < |p.blocks| && |values| == |p.sensors|
  {
    if s.stopped then s
    else if result.None? then CycleFailed(s, connected)
    else BlockRead(p, s.(replies := s.replies + [result.value]), block + 1,
                   Updated(p, p.blocks[block], values, result.value), stamp)
  }

  function ConnectHandled(p: Setup, s: State, ok: bool, connected: bool, stamp: int): State {
    if s.stopped then s
    else if !ok then CycleFailed(s, connected)
    else BlockRead(p, s, 0, Nothing(p), stamp)
  }

  function Scheduled(p: Setup, s: State, now: nat): State {
    if s.stopped then s
    else
      var due := s.nextTick + p.interval;
      var tick := if due < now then now + p.interval else due;
      s.(nextTick := tick, pending := s.pending + [Timer],
         journal := s.journal.(ticks := s.journal.ticks + [Tick(tick, now)]))
  }

  // ---------------------------------------------------------------------
  // Steps
  // ---------------------------------------------------------------------

  /** Does the event complete what is pending? */
  predicate Completes(e: Event, t: Task) {
    match t
    case Timer => e.TimerFires?
    case Connecting => e.Connected?
    case Requesting(_, _) => e.Replied?
    case Scheduling => e.Schedule?
  }

  predicate Enabled(p: Setup, s: State, e: Event) {
    match e
    case Start(now, _, _) => s.journal.ticks == [] && s.pending == [] && s.clock <= now
    case Stop => true
    case _ =>
      && s.pending != [] && Completes(e, s.pending[0])
      && (s.pending[0].Requesting? ==> s.pending[0].block < |p.blocks| && |s.pending[0].values| == |p.sensors|)
      && (e.TimerFires? ==> s.clock <= e.now && if e.aborted then s.stopped else s.nextTick <= e.now)
      && (e.Schedule? ==> s.clock <= e.now)
  }

  function Next(p: Setup, s: State, e: Event): State
    requires Enabled(p, s, e)
  {
    match e
    case Start(now, connected, stamp) =>
      CycleRun(p, s.(clock := now, nextTick := now, journal := s.journal.(ticks := [Tick(now, now)])), connected, stamp)
    case Stop => s.(stopped := true)
    case TimerFires(aborted, now, connected, stamp) =>
      var t := Popped(s).(clock := now);
      if aborted then t else CycleRun(p, t, connected, stamp)
    case Connected(ok, connected, stamp) => ConnectHandled(p, Popped(s), ok, connected, stamp)
    case Replied(result, connected, stamp) =>
      var task := s.pending[0];
      ReplyHandled(p, Popped(s), task.block, task.values, result, connected, stamp)
    case Schedule(now) => Scheduled(p, Popped(s).(clock := now), now)
  }

  function Popped(s: State): State
    requires s.pending != []
  {
    s.(pending := s.pending[1..])
  }

  // ---------------------------------------------------------------------
  // Invariants
  // ---------------------------------------------------------------------

  /** The blocks come from plan_reads. */
  ghost predicate Planned(p: Setup) {
    EachOnce(p.sensors, Indices(p.blocks)) && forall k | 0 <= k < |p.blocks| :: Exact(p.sensors, p.blocks[k])
  }

  /** The value the answers so far give a sensor; a later block would win. */
  function ValueAt(p: Setup, replies: seq<seq<u16>>, i: nat): Option<real>
    requires |replies| <= |p.blocks| && i < |p.sensors|
  {
    if replies == [] then None
    else
      var k := |replies| - 1;
      if i in p.blocks[k].indices then ExtractValue(p.blocks[k], replies[k], p.sensors[i])
      else ValueAt(p, replies[..k], i)
  }

  function ValuesAt(p: Setup, replies: seq<seq<u16>>): (values: Values)
    requires |replies| <= |p.blocks|
    ensures |values| == |p.sensors|
  {
    seq(|p.sensors|, i requires 0 <= i < |p.sensors| => ValueAt(p, replies, i))
  }

  /** Exactly one thing is pending from start to stop; none or that one afterwards. */
  ghost predicate OnePending(s: State) {
    |s.pending| <= 1 && (s.journal.ticks != [] && !s.stopped ==> |s.pending| == 1)
  }

  /** The values collected in the running cycle come from the answers to its first blocks. */
  ghost predicate Collecting(p: Setup, s: State) {
    && (s.pending != [] && s.pending[0].Requesting? ==>
          s.pending[0].block == |s.replies| < |p.blocks| && s.pending[0].values == ValuesAt(p, s.replies))
    && (s.pending == [] || !s.pending[0].Requesting? ==> s.replies == [] || s.stopped)
  }

  function Readings(published: seq<Publication>): seq<Publication> {
    if published == [] then []
    else Readings(published[..|published| - 1])
         + (if published[|published| - 1].Reading? then [published[|published| - 1]] else [])
  }

  function Statuses(published: seq<Publication>): seq<bool> {
    if published == [] then []
    else Statuses(published[..|published| - 1])
         + (if published[|published| - 1].Status? then [published[|published| - 1].online] else [])
  }

  ghost predicate AllAnswered(p: Setup, cycles: seq<Cycle>) {
    forall c | 0 <= c < |cycles| :: |cycles[c].replies| == |p.blocks|
  }

  /** The readings of all finished cycles, cycle after cycle. */
  function CycleReadings(p: Setup, cycles: seq<Cycle>): seq<Publication>
    requires AllAnswered(p, cycles)
  {
    if cycles == [] then []
    else
      var last := cycles[|cycles| - 1];
      CycleReadings(p, cycles[..|cycles| - 1]) + ReadingsOf(ValuesAt(p, last.replies), |p.sensors|, last.stamp)
  }

  /** What was published is what the finished cycles read, nothing else. */
  ghost predicate Faithful(p: Setup, j: Journal) {
    AllAnswered(p, j.cycles) && Readings(j.published) == CycleReadings(p, j.cycles)
  }

  ghost predicate Alternating(statuses: seq<bool>) {
    forall k | 0 < k < |statuses| :: statuses[k] != statuses[k - 1]
  }

  ghost predicate StatusKnown(s: State) {
    var statuses := Statuses(s.journal.published);
    && Alternating(statuses)
    && s.lastStatus == if statuses == [] then None else Some(statuses[|statuses| - 1])
  }

  /** A tick lies between the time it was scheduled at and one interval later; it is one
      interval after the tick before, or, when that has passed, one interval from now. */
  ghost predicate TickOk(p: Setup, ticks: seq<Tick>, k: nat)
    requires k < |ticks|
  {
    && ticks[k].now <= ticks[k].at <= ticks[k].now + p.interval
    && (k > 0 ==> ticks[k - 1].at + p.interval <= ticks[k].at)
    && (k > 0 ==> ticks[k].at == if ticks[k].now <= ticks[k - 1].at + p.interval
                                 then ticks[k - 1].at + p.interval else ticks[k].now + p.interval)
  }

  ghost predicate Paced(p: Setup, ticks: seq<Tick>) {
    forall k | 0 <= k < |ticks| :: TickOk(p, ticks, k)
  }

  ghost predicate OnTime(p: Setup, s: State) {
    var ticks := s.journal.ticks;
    && Paced(p, ticks)
    && (ticks != [] ==> s.nextTick == ticks[|ticks| - 1].at)
    && (s.pending != [] ==> ticks != [])
    && (s.pending != [] && !s.pending[0].Timer? ==> s.nextTick <= s.clock)
  }

  ghost predicate Inv(p: Setup, s: State) {
    OnePending(s) && Collecting(p, s) && Faithful(p, s.journal) && StatusKnown(s) && OnTime(p, s)
  }

  // ---------------------------------------------------------------------
  // Publications
  // ---------------------------------------------------------------------

  lemma {:induction false} PublishedParts(a: seq<Publication>, b: seq<Publication>)
    ensures Readings(a + b) == Readings(a) + Readings(b) && Statuses(a + b) == Statuses(a) + Statuses(b)
  {
    if b == [] {
      assert a + [] == a;
    } else {
      var init, last := b[..|b| - 1], b[|b| - 1];
      PublishedParts(a, init);
      assert (a + b)[..|a + b| - 1] == a + init && (a + b)[|a + b| - 1] == last;
    }
  }

  lemma {:induction false} OnlyReadings(values: Values, n: nat, stamp: int)
    requires n <= |values|
    ensures Readings(ReadingsOf(values, n, stamp)) == ReadingsOf(values, n, stamp)
    ensures Statuses(ReadingsOf(values, n, stamp)) == []
  {
    if n > 0 {
      var before := ReadingsOf(values, n - 1, stamp);
      OnlyReadings(values, n - 1, stamp);
      if values[n - 1].Some? {
        var last := Reading(n - 1, values[n - 1].value, stamp);
        OneReading(last);
        hide Readings, Statuses;
        PublishedParts(before, [last]);
      } else {
        assert before + [] == before;
      }
    }
  }

  lemma OneReading(x: Publication)
    requires x.Reading?
    ensures Readings([x]) == [x] && Statuses([x]) == []
  {
    assert [x][..0] == [];
  }

  lemma StatusFaithful(p: Setup, s: State, online: bool)
    requires StatusKnown(s)
    ensures StatusKnown(StatusPublished(s, online)) && StatusPublished(s, online).lastStatus == Some(online)
    ensures Readings(StatusPublished(s, online).journal.published) == Readings(s.journal.published)
    ensures StatusPublished(s, online).journal.cycles == s.journal.cycles
  {
    PublishedParts(s.journal.published, [Status(online)]);
  }

  /** Publishing anything that is not a status keeps the statuses. */
  lemma NoStatus(s: State, what: seq<Publication>)
    requires StatusKnown(s) && Statuses(what) == []
    ensures StatusKnown(Published(s, what))
    ensures Readings(Published(s, what).journal.published) == Readings(s.journal.published) + Readings(what)
  {
    PublishedParts(s.journal.published, what);
    assert Statuses(s.journal.published) + [] == Statuses(s.journal.published);
  }

  lemma FinishedPublishes(p: Setup, s: State, values: Values, stamp: int)
    requires Faithful(p, s.journal) && StatusKnown(s)
    requires |s.replies| == |p.blocks| && values == ValuesAt(p, s.replies)
    ensures Faithful(p, CycleFinished(s, values, stamp).journal) && StatusKnown(CycleFinished(s, values, stamp))
  {
    StatusFaithful(p, s, true);
    OnlyReadings(values, |values|, stamp);
    NoStatus(StatusPublished(s, true), ReadingsOf(values, |values|, stamp));
    var cycles, c := s.journal.cycles, Cycle(s.replies, stamp);
    assert (cycles + [c])[..|cycles|] == cycles;
    hide ReadingsOf, Readings, Statuses;
  }

  lemma FailedPublishes(p: Setup, s: State, connected: bool)
    requires Faithful(p, s.journal) && StatusKnown(s)
    ensures Faithful(p, CycleFailed(s, connected).journal) && StatusKnown(CycleFailed(s, connected))
  {
    assert Statuses([PollError]) == [] && Readings([PollError]) == [];
    NoStatus(s, [PollError]);
    StatusFaithful(p, Published(s, [PollError]), connected);
    hide Readings, Statuses, CycleReadings;
  }

  // ---------------------------------------------------------------------
  // The collected values
  // ---------------------------------------------------------------------

  lemma NothingCollected(p: Setup)
    ensures Nothing(p) == ValuesAt(p, [])
  {}

  lemma UpdateCollects(p: Setup, replies: seq<seq<u16>>, registers: seq<u16>)
    requires |replies| < |p.blocks|
    ensures Updated(p, p.blocks[|replies|], ValuesAt(p, replies), registers) == ValuesAt(p, replies + [registers])
  {
    assert (replies + [registers])[..|replies|] == replies;
  }

  /** Everything but the clock-driven part, which BlockRead does not touch. */
  ghost predicate Working(p: Setup, s: State) {
    OnePending(s) && Collecting(p, s) && Faithful(p, s.journal) && StatusKnown(s)
  }

  lemma BlockReadWorks(p: Setup, s: State, block: nat, values: Values, stamp: int)
    requires Faithful(p, s.journal) && StatusKnown(s) && s.pending == [] && !s.stopped
    requires block == |s.replies| <= |p.blocks| && values == ValuesAt(p, s.replies)
    ensures Working(p, BlockRead(p, s, block, values, stamp))
    ensures |BlockRead(p, s, block, values, stamp).pending| == 1
  {
    if block >= |p.blocks| {
      FinishedPublishes(p, s, values, stamp);
    }
    hide Faithful, StatusKnown, ValuesAt, ReadingsOf;
  }

  lemma CycleRunWorks(p: Setup, s: State, connected: bool, stamp: int)
    requires Faithful(p, s.journal) && StatusKnown(s) && s.pending == [] && (s.stopped || s.replies == [])
    ensures Working(p, CycleRun(p, s, connected, stamp))
  {
    if !s.stopped && connected {
      NothingCollected(p);
      BlockReadWorks(p, s, 0, Nothing(p), stamp);
    }
    hide Faithful, StatusKnown, ValuesAt, BlockRead, Nothing;
  }

  lemma FailedWorks(p: Setup, s: State, connected: bool)
    requires Faithful(p, s.journal) && StatusKnown(s) && s.pending == []
    ensures Working(p, CycleFailed(s, connected))
  {
    FailedPublishes(p, s, connected);
    hide Faithful, StatusKnown, ValuesAt;
  }

  lemma StepWorking(p: Setup, s: State, e: Event)
    requires Working(p, s) && Enabled(p, s, e)
    ensures Working(p, Next(p, s, e))
  {
    match e
    case Start(now, connected, stamp) =>
      StartWorks(p, s, now, connected, stamp);
    case Stop =>
      hide Faithful, ValuesAt, Statuses;
    case TimerFires(aborted, now, connected, stamp) =>
      var t := s.(pending := s.pending[1..], clock := now);
      hide Faithful, Statuses, CycleRun, ValuesAt;
      if !aborted { CycleRunWorks(p, t, connected, stamp); }
    case Connected(ok, connected, stamp) =>
      var t := s.(pending := s.pending[1..]);
      hide Faithful, Statuses, CycleFailed, BlockRead, ValuesAt;
      NothingCollected(p);
      if !s.stopped {
        if ok { BlockReadWorks(p, t, 0, Nothing(p), stamp); } else { FailedWorks(p, t, connected); }
      }
    case Replied(result, connected, stamp) =>
      var t := s.(pending := s.pending[1..]);
      hide Faithful, Statuses, CycleFailed, BlockRead, ValuesAt, Updated;
      if !s.stopped {
        if result.None? { FailedWorks(p, t, connected); }
        else {
          UpdateCollects(p, s.replies, result.value);
          BlockReadWorks(p, t.(replies := s.replies + [result.value]), s.pending[0].block + 1,
                         Updated(p, p.blocks[s.pending[0].block], s.pending[0].values, result.value), stamp);
        }
      }
    case Schedule(now) =>
      hide Faithful, Statuses, ValuesAt;
      JournalSame(p, s.journal, Scheduled(p, s.(pending := s.pending[1..], clock := now), now).journal);
  }

  lemma StartWorks(p: Setup, s: State, now: nat, connected: bool, stamp: int)
    requires Working(p, s) && Enabled(p, s, Start(now, connected, stamp))
    ensures Working(p, Next(p, s, Start(now, connected, stamp)))
  {
    var t := s.(clock := now, nextTick := now, journal := s.journal.(ticks := [Tick(now, now)]));
    JournalSame(p, s.journal, t.journal);
    hide Faithful, Statuses, CycleRun, ValuesAt;
    CycleRunWorks(p, t, connected, stamp);
  }

  lemma JournalSame(p: Setup, j: Journal, k: Journal)
    requires Faithful(p, j) && j.published == k.published && j.cycles == k.cycles
    ensures Faithful(p, k)
  {}

  // ---------------------------------------------------------------------
  // The schedule
  // ---------------------------------------------------------------------

  lemma TicksKept(p: Setup, s: State, connected: bool, stamp: int)
    ensures var t := CycleRun(p, s, connected, stamp);
            t.journal.ticks == s.journal.ticks && t.nextTick == s.nextTick && t.clock == s.clock
    ensures var t := CycleRun(p, s, connected, stamp);
            forall k | |s.pending| <= k < |t.pending| :: !t.pending[k].Timer?
  {
    hide ReadingsOf;
  }

  /** Neither clock nor schedule moved, and no timer was armed. */
  ghost predicate TicksUntouched(s: State, t: State) {
    && t.journal.ticks == s.journal.ticks && t.nextTick == s.nextTick && t.clock == s.clock
    && forall k | 0 <= k < |t.pending| :: t.pending[k].Timer? ==> k < |s.pending|
  }

  lemma FailedKeepsTicks(s: State, connected: bool)
    ensures TicksUntouched(s, CycleFailed(s, connected))
  {}

  lemma BlockReadKeepsTicks(p: Setup, s: State, block: nat, values: Values, stamp: int)
    ensures TicksUntouched(s, BlockRead(p, s, block, values, stamp))
  {
    hide ReadingsOf;
  }

  lemma HandlersKeepTicks(p: Setup, s: State, e: Event)
    requires Enabled(p, s, e) && (e.Connected? || e.Replied?) && OnePending(s)
    ensures TicksUntouched(Popped(s), Next(p, s, e)) && Popped(s).pending == []
  {
    var t := Popped(s);
    hide CycleFailed, BlockRead, Updated, Nothing;
    if e.Connected? {
      FailedKeepsTicks(t, e.connected);
      BlockReadKeepsTicks(p, t, 0, Nothing(p), e.stamp);
    } else if !s.stopped {
      FailedKeepsTicks(t, e.connected);
      if e.result.Some? {
        var task := s.pending[0];
        BlockReadKeepsTicks(p, t.(replies := t.replies + [e.result.value]), task.block + 1,
                            Updated(p, p.blocks[task.block], task.values, e.result.value), e.stamp);
      }
    }
  }

  lemma StartOnTime(p: Setup, s: State, e: Event)
    requires OnTime(p, s) && Enabled(p, s, e) && e.Start?
    ensures OnTime(p, Next(p, s, e))
  {
    var t := s.(clock := e.now, nextTick := e.now, journal := s.journal.(ticks := [Tick(e.now, e.now)]));
    TicksKept(p, t, e.connected, e.stamp);
    hide CycleRun;
  }

  lemma TimerOnTime(p: Setup, s: State, e: Event)
    requires OnePending(s) && OnTime(p, s) && Enabled(p, s, e) && e.TimerFires?
    ensures OnTime(p, Next(p, s, e))
  {
    TicksKept(p, Popped(s).(clock := e.now), e.connected, e.stamp);
    hide CycleRun, Paced;
  }

  lemma NextTickPaced(p: Setup, ticks: seq<Tick>, now: nat)
    requires Paced(p, ticks) && ticks != [] && ticks[|ticks| - 1].at <= now
    ensures var due := ticks[|ticks| - 1].at + p.interval;
            Paced(p, ticks + [Tick(if due < now then now + p.interval else due, now)])
  {
    var due := ticks[|ticks| - 1].at + p.interval;
    var later := ticks + [Tick(if due < now then now + p.interval else due, now)];
    forall k | 0 <= k < |later| ensures TickOk(p, later, k) {
      if k < |ticks| { assert TickOk(p, ticks, k); }
    }
  }

  lemma ScheduleOnTime(p: Setup, s: State, e: Event)
    requires OnePending(s) && OnTime(p, s) && Enabled(p, s, e) && e.Schedule?
    ensures OnTime(p, Next(p, s, e))
  {
    NextTickPaced(p, s.journal.ticks, e.now);
    hide CycleRun, ReplyHandled, ConnectHandled, Paced, TickOk;
  }

  lemma StepOnTime(p: Setup, s: State, e: Event)
    requires OnePending(s) && OnTime(p, s) && Enabled(p, s, e)
    ensures OnTime(p, Next(p, s, e))
  {
    if e.Start? { StartOnTime(p, s, e); }
    else if e.TimerFires? { TimerOnTime(p, s, e); }
    else if e.Schedule? { ScheduleOnTime(p, s, e); }
    else if e.Stop? { hide Paced; }
    else {
      HandlersKeepTicks(p, s, e);
      TicksKnown(p, s, e);
      hide Next, Paced, Enabled;
    }
  }

  lemma TicksKnown(p: Setup, s: State, e: Event)
    requires OnTime(p, s) && Enabled(p, s, e) && (e.Connected? || e.Replied?)
    ensures s.journal.ticks != [] && s.nextTick <= s.clock
  {}

  lemma StepInv(p: Setup, s: State, e: Event)
    requires Inv(p, s) && Enabled(p, s, e)
    ensures Inv(p, Next(p, s, e))
  {
    hide OnePending, Collecting, Faithful, StatusKnown, OnTime, Enabled, Next;
    StepWorking(p, s, e);
    StepOnTime(p, s, e);
  }

  // ---------------------------------------------------------------------
  // Whole runs
  // ---------------------------------------------------------------------

  predicate Execution(p: Setup, s: State, events: seq<Event>)
    decreases |events|
  {
    events == [] || (Enabled(p, s, events[0]) && Execution(p, Next(p, s, events[0]), events[1..]))
  }

  function After(p: Setup, s: State, events: seq<Event>): State
    requires Execution(p, s, events)
    decreases |events|
  {
    if events == [] then s else After(p, Next(p, s, events[0]), events[1..])
  }

  lemma {:induction false} RunInv(p: Setup, s: State, events: seq<Event>)
    requires Inv(p, s) && Execution(p, s, events)
    ensures Inv(p, After(p, s, events))
    decreases |events|
  {
    hide Inv, Enabled, Next;
    if events != [] {
      StepInv(p, s, events[0]);
      RunInv(p, Next(p, s, events[0]), events[1..]);
    }
  }

  lemma InitInv(p: Setup)
    ensures Inv(p, Init())
  {}

  /** What one finished cycle publishes: readings of different sensors in configuration order,
      all with its timestamp, for exactly the sensors whose answers give a value, and that value. */
  ghost predicate PublishesCycle(p: Setup, c: Cycle, readings: seq<Publication>)
    requires |c.replies| <= |p.blocks|
  {
    && (forall k | 0 <= k < |readings| :: readings[k].Reading? && readings[k].stamp == c.stamp)
    && (forall j, k | 0 <= j < k < |readings| :: readings[j].sensor < readings[k].sensor)
    && (forall k | 0 <= k < |readings| :: readings[k].sensor < |p.sensors|)
    && (forall i: nat, v | i < |p.sensors| ::
          Reading(i, v, c.stamp) in readings <==> ValueAt(p, c.replies, i) == Some(v))
  }

  /** The readings published for n sensors: in order, with one timestamp, none missing or made up. */
  lemma {:induction false} ReadingsMeaning(values: Values, n: nat, stamp: int)
    requires n <= |values|
    ensures var r := ReadingsOf(values, n, stamp);
            && (forall k | 0 <= k < |r| :: r[k].Reading? && r[k].stamp == stamp && r[k].sensor < n)
            && (forall j, k | 0 <= j < k < |r| :: r[j].sensor < r[k].sensor)
            && (forall i: nat, v | i < n :: Reading(i, v, stamp) in r <==> values[i] == Some(v))
  {
    if n > 0 {
      ReadingsMeaning(values, n - 1, stamp);
      var before := ReadingsOf(values, n - 1, stamp);
      var last := if values[n - 1].Some? then [Reading(n - 1, values[n - 1].value, stamp)] else [];
      forall i: nat, v | i < n ensures Reading(i, v, stamp) in before + last <==> values[i] == Some(v) {
        assert Reading(i, v, stamp) in before + last <==> Reading(i, v, stamp) in before || Reading(i, v, stamp) in last;
      }
    }
  }

  function Concat(batches: seq<seq<Publication>>): seq<Publication> {
    if batches == [] then [] else Concat(batches[..|batches| - 1]) + batches[|batches| - 1]
  }

  /** The readings of the finished cycles, one batch for each. */
  lemma {:induction false} CyclesPublish(p: Setup, cycles: seq<Cycle>) returns (batches: seq<seq<Publication>>)
    requires AllAnswered(p, cycles)
    ensures |batches| == |cycles| && Concat(batches) == CycleReadings(p, cycles)
    ensures forall c | 0 <= c < |cycles| :: PublishesCycle(p, cycles[c], batches[c])
  {
    hide ReadingsOf, ValueAt, PublishesCycle;
    if cycles == [] {
      batches := [];
    } else {
      var init, last := cycles[..|cycles| - 1], cycles[|cycles| - 1];
      var before := CyclesPublish(p, init);
      OneCyclePublishes(p, last);
      batches := before + [ReadingsOf(ValuesAt(p, last.replies), |p.sensors|, last.stamp)];
      assert batches[..|before|] == before;
      forall c | 0 <= c < |cycles| ensures PublishesCycle(p, cycles[c], batches[c]) {
        if c < |init| { assert cycles[c] == init[c] && batches[c] == before[c]; }
      }
    }
  }

  lemma OneCyclePublishes(p: Setup, c: Cycle)
    requires |c.replies| <= |p.blocks|
    ensures PublishesCycle(p, c, ReadingsOf(ValuesAt(p, c.replies), |p.sensors|, c.stamp))
  {
    ReadingsMeaning(ValuesAt(p, c.replies), |p.sensors|, c.stamp);
    hide ReadingsOf, ValueAt;
  }

  /** In every run at most one of timer, connect, request and scheduling is pending, and exactly
      one while the poller is started and not stopped; the readings published are, batch after
      batch, those of the cycles in which every block was answered; statuses alternate. */
  lemma PollerRuns(p: Setup, events: seq<Event>) returns (batches: seq<seq<Publication>>)
    requires Execution(p, Init(), events)
    ensures var s := After(p, Init(), events);
            && |s.pending| <= 1 && (s.journal.ticks != [] && !s.stopped ==> |s.pending| == 1)
            && AllAnswered(p, s.journal.cycles) && |batches| == |s.journal.cycles|
            && Readings(s.journal.published) == Concat(batches)
            && (forall c | 0 <= c < |batches| :: PublishesCycle(p, s.journal.cycles[c], batches[c]))
            && Alternating(Statuses(s.journal.published))
            && Paced(p, s.journal.ticks)
  {
    InitInv(p);
    hide Execution, After, Readings, Statuses, CycleReadings, Paced, PublishesCycle, Concat;
    RunInv(p, Init(), events);
    batches := CyclesPublish(p, After(p, Init(), events).journal.cycles);
  }

  /** Ticks never bunch up: k ticks later is at least k intervals later. */
  lemma {:induction false} TicksSpaced(p: Setup, ticks: seq<Tick>, j: nat, k: nat)
    requires Paced(p, ticks) && j <= k < |ticks|
    ensures ticks[j].at + (k - j) * p.interval <= ticks[k].at
  {
    if j < k {
      TicksSpaced(p, ticks, j, k - 1);
      assert TickOk(p, ticks, k);
      assert (k - j) * p.interval == (k - 1 - j) * p.interval + p.interval;
    }
  }

  /** The first n cycles each ended by the time the next tick was due. */
  ghost predicate NoOverrun(p: Setup, ticks: seq<Tick>, n: nat)
    requires n <= |ticks|
  {
    forall k | 0 < k < n :: ticks[k].now <= ticks[k - 1].at + p.interval
  }

  ghost predicate OnGrid(p: Setup, ticks: seq<Tick>, n: nat)
    requires n <= |ticks|
  {
    forall k | 0 <= k < n :: ticks[k].at == ticks[0].at + k * p.interval
  }

  /** The schedule is fixed-rate exactly as long as no cycle overruns the next tick. */
  lemma {:induction false} FixedRate(p: Setup, ticks: seq<Tick>, n: nat)
    requires Paced(p, ticks) && n <= |ticks|
    ensures NoOverrun(p, ticks, n) <==> OnGrid(p, ticks, n)
  {
    if n == 1 {
      assert 0 * p.interval == 0;
    } else if n > 1 {
      FixedRate(p, ticks, n - 1);
      assert TickOk(p, ticks, n - 1);
      Multiples(p.interval, n - 1);
      if OnGrid(p, ticks, n) {
        assert OnGrid(p, ticks, n - 1);
        assert ticks[n - 1].at == ticks[0].at + (n - 1) * p.interval;
        assert ticks[n - 2].at == ticks[0].at + (n - 2) * p.interval;
      }
    }
  }

  lemma Multiples(interval: nat, k: nat)
    requires k > 0
    ensures k * interval == (k - 1) * interval + interval
  {}

  // ---------------------------------------------------------------------
  // What a cycle publishes
  // ---------------------------------------------------------------------

  lemma {:induction false} ValueFromItsBlock(p: Setup, replies: seq<seq<u16>>, k: nat, i: nat)
    requires Planned(p) && k < |replies| <= |p.blocks| && i < |p.sensors| && i in p.blocks[k].indices
    ensures ValueAt(p, replies, i) == ExtractValue(p.blocks[k], replies[k], p.sensors[i])
  {
    var last := |replies| - 1;
    if k < last {
      if i in p.blocks[last].indices {
        OneBlockEach(p, k, last, i);
      }
      ValueFromItsBlock(p, replies[..last], k, i);
    }
  }

  lemma OneBlockEach(p: Setup, k: nat, m: nat, i: nat)
    requires Planned(p) && k < m < |p.blocks| && i < |p.sensors| && i in p.blocks[k].indices
    ensures i !in p.blocks[m].indices
  {
    hide Indices, Exact;
    var before, rest := p.blocks[..m], p.blocks[m..];
    IndicesConcat(before, rest);
    assert before + rest == p.blocks && before[k] == p.blocks[k];
    BlockInIndices(before, k, i);
    if i in p.blocks[m].indices {
      assert rest[0] == p.blocks[m];
      BlockInIndices(rest, 0, i);
      CountedTwice(Indices(before), Indices(rest), i);
    }
  }

  lemma CountedTwice(a: seq<nat>, b: seq<nat>, i: nat)
    requires i in a && i in b
    ensures multiset(a + b)[i] >= 2
  {
    assert i in multiset(a) && i in multiset(b);
  }

  lemma {:induction false} BlockInIndices(blocks: seq<ReadBlock>, k: nat, i: nat)
    requires k < |blocks| && i in blocks[k].indices
    ensures i in Indices(blocks)
  {
    if k < |blocks| - 1 {
      BlockInIndices(blocks[..|blocks| - 1], k, i);
    }
  }

  /** Against a device that answers conformingly out of registers that do not change, a finished
      cycle publishes for every sensor, in configuration order, the value a read of that sensor
      alone would give; a sensor whose value is not a number is skipped. */
  lemma CycleIsDirect(p: Setup, replies: seq<seq<u16>>, memory: Memory, stamp: int)
    requires Planned(p) && |replies| == |p.blocks|
    requires forall k | 0 <= k < |replies| ::
               replies[k] == ReadRange(memory, p.blocks[k].table, p.blocks[k].start, p.blocks[k].quantity)
    ensures ReadingsOf(ValuesAt(p, replies), |p.sensors|, stamp)
         == ReadingsOf(seq(|p.sensors|, i requires 0 <= i < |p.sensors| => DirectValue(memory, p.sensors[i])),
                       |p.sensors|, stamp)
  {
    hide ReadingsOf, Indices, EachOnce;
    forall i | 0 <= i < |p.sensors| ensures ValueAt(p, replies, i) == DirectValue(memory, p.sensors[i]) {
      var k := BlockServing(p, i);
      ValueFromItsBlock(p, replies, k, i);
      ExtractIsDirect(p.sensors[i], p.blocks[k], memory);
    }
    assert ValuesAt(p, replies)
        == seq(|p.sensors|, i requires 0 <= i < |p.sensors| => DirectValue(memory, p.sensors[i]));
  }

  lemma BlockServing(p: Setup, i: nat) returns (k: nat)
    requires Planned(p) && i < |p.sensors|
    ensures k < |p.blocks| && i in p.blocks[k].indices
  {
    InSomeBlock(p, i);
    k := GroupServing(p.blocks, i);
  }

  lemma InSomeBlock(p: Setup, i: nat)
    requires Planned(p) && i < |p.sensors|
    ensures i in Indices(p.blocks)
  {
    hide Indices, Exact;
    assert i in multiset(Indices(p.blocks));
  }

  lemma GroupServing(blocks: seq<ReadBlock>, i: nat) returns (k: nat)
    requires i in Indices(blocks)
    ensures k < |blocks| && i in blocks[k].indices
  {
    IndexInGroup(blocks, i);
    hide Indices;
    var g :| g in Groups(blocks) && i in g;
    k :| 0 <= k < |blocks| && Groups(blocks)[k] == g;
  }

  // ---------------------------------------------------------------------
  // What each event of a running poller leads to
  // ---------------------------------------------------------------------

  /** The status to publish, unless it has been said already. */
  function News(s: State, online: bool): seq<Publication> {
    if s.lastStatus == Some(online) then [] else [Status(online)]
  }

  /** The running cycle is given up: one error, then the connection's status. */
  ghost predicate GivenUp(s: State, t: State, connected: bool) {
    && t.journal == s.journal.(published := s.journal.published + [PollError] + News(s, connected))
    && t.lastStatus == Some(connected) && t.replies == [] && t.pending == [Scheduling]
  }

  /** The cycle is over with all answers: online, then its readings. */
  ghost predicate Completed(p: Setup, s: State, t: State, replies: seq<seq<u16>>, stamp: int)
    requires |replies| == |p.blocks|
  {
    && t.journal == s.journal.(published := s.journal.published + News(s, true)
                                            + ReadingsOf(ValuesAt(p, replies), |p.sensors|, stamp),
                               cycles := s.journal.cycles + [Cycle(replies, stamp)])
    && t.lastStatus == Some(true) && t.replies == [] && t.pending == [Scheduling]
  }

  /** A cycle that has the answers to the first blocks waits for the next, or is complete. */
  ghost predicate WaitsForNext(p: Setup, s: State, t: State, replies: seq<seq<u16>>, stamp: int)
    requires |replies| <= |p.blocks|
  {
    if |replies| == |p.blocks| then Completed(p, s, t, replies, stamp)
    else t.journal == s.journal && t.lastStatus == s.lastStatus && t.replies == replies
         && t.pending == [Requesting(|replies|, ValuesAt(p, replies))]
  }

  lemma BlockReadWaits(p: Setup, s: State, stamp: int)
    requires s.pending == [] && |s.replies| <= |p.blocks|
    ensures WaitsForNext(p, s, BlockRead(p, s, |s.replies|, ValuesAt(p, s.replies), stamp), s.replies, stamp)
  {
    hide ReadingsOf, ValuesAt;
    if |s.replies| == |p.blocks| {
      Sequences.NothingBefore(s.journal.published);
    }
  }

  /** The first tick and every later one begin a cycle: with the first block when the client is
      connected, with a connect when it is not. */
  lemma CycleBegins(p: Setup, s: State, e: Event)
    requires Inv(p, s) && Enabled(p, s, e) && !s.stopped && (e.Start? || e.TimerFires?)
    ensures var t := Next(p, s, e);
            if e.connected then WaitsForNext(p, s.(journal := s.journal.(ticks := t.journal.ticks)), t, [], e.stamp)
            else t.pending == [Connecting] && t.replies == [] && t.lastStatus == s.lastStatus
                 && t.journal.published == s.journal.published && t.journal.cycles == s.journal.cycles
    ensures e.TimerFires? ==> Next(p, s, e).journal.ticks == s.journal.ticks
  {
    hide Faithful, StatusKnown, OnTime, BlockRead, WaitsForNext, Nothing;
    NothingCollected(p);
    if e.Start? {
      var u := s.(clock := e.now, nextTick := e.now, journal := s.journal.(ticks := [Tick(e.now, e.now)]));
      BlockReadWaits(p, u, e.stamp);
      TicksKept(p, u, e.connected, e.stamp);
      WaitsFrom(p, u, s.(journal := u.journal), Next(p, s, e), e.stamp);
    } else {
      var u := Popped(s).(clock := e.now);
      BlockReadWaits(p, u, e.stamp);
      TicksKept(p, u, e.connected, e.stamp);
      WaitsFrom(p, u, s.(journal := u.journal), Next(p, s, e), e.stamp);
    }
  }

  lemma WaitsFrom(p: Setup, u: State, s: State, t: State, stamp: int)
    requires u.journal == s.journal && u.lastStatus == s.lastStatus
    ensures WaitsForNext(p, u, t, [], stamp) <==> WaitsForNext(p, s, t, [], stamp)
  {}

  /** A connect that succeeded leads on to the first block; one that failed ends the cycle. */
  lemma ConnectLeadsOn(p: Setup, s: State, e: Event)
    requires Inv(p, s) && Enabled(p, s, e) && !s.stopped && e.Connected?
    ensures if e.ok then WaitsForNext(p, s, Next(p, s, e), [], e.stamp) else GivenUp(s, Next(p, s, e), e.connected)
    ensures !Next(p, s, e).stopped
  {
    hide Faithful, StatusKnown, OnTime, BlockRead, WaitsForNext, Nothing, CycleFailed;
    NothingCollected(p);
    BlockReadWaits(p, Popped(s), e.stamp);
    WaitsFrom(p, Popped(s), s, Next(p, s, e), e.stamp);
    FailureReported(Popped(s), e.connected);
    BlockReadStops(p, Popped(s), 0, Nothing(p), e.stamp);
  }

  /** An answer leads on to the next block or, after the last one, to the readings; an error ends
      the cycle. */
  lemma ReplyLeadsOn(p: Setup, s: State, e: Event)
    requires Inv(p, s) && Enabled(p, s, e) && !s.stopped && e.Replied?
    ensures |s.replies| < |p.blocks|
    ensures if e.result.Some? then WaitsForNext(p, s, Next(p, s, e), s.replies + [e.result.value], e.stamp)
            else GivenUp(s, Next(p, s, e), e.connected)
    ensures !Next(p, s, e).stopped
  {
    hide Faithful, StatusKnown, OnTime, BlockRead, WaitsForNext, Updated, CycleFailed, ValuesAt;
    var t := Popped(s);
    FailureReported(t, e.connected);
    if e.result.Some? {
      var task, replies := s.pending[0], s.replies + [e.result.value];
      UpdateCollects(p, s.replies, e.result.value);
      BlockReadWaits(p, t.(replies := replies), e.stamp);
      BlockReadStops(p, t.(replies := replies), task.block + 1, ValuesAt(p, replies), e.stamp);
      SameWait(p, t.(replies := replies), s, Next(p, s, e), replies, e.stamp);
    }
  }

  lemma SameWait(p: Setup, u: State, s: State, t: State, replies: seq<seq<u16>>, stamp: int)
    requires |replies| <= |p.blocks| && u.journal == s.journal && u.lastStatus == s.lastStatus
    requires WaitsForNext(p, u, t, replies, stamp)
    ensures WaitsForNext(p, s, t, replies, stamp)
  {}

  lemma BlockReadStops(p: Setup, s: State, block: nat, values: Values, stamp: int)
    ensures BlockRead(p, s, block, values, stamp).stopped == s.stopped
  {
    hide ReadingsOf;
  }

  lemma FailureReported(s: State, connected: bool)
    requires s.pending == []
    ensures GivenUp(s, CycleFailed(s, connected), connected) && CycleFailed(s, connected).stopped == s.stopped
  {}

  /** Once stopped the poller publishes nothing more, and what it waits for dies out. */
  lemma StoppedIsSilent(p: Setup, s: State, e: Event)
    requires Inv(p, s) && s.stopped && Enabled(p, s, e) && !e.Start?
    ensures Next(p, s, e).journal == s.journal && Next(p, s, e).stopped
    ensures !e.Stop? ==> Next(p, s, e).pending == []
  {
    hide Collecting, Faithful, StatusKnown, OnTime, ReadingsOf;
  }
}
