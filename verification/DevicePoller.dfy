/** The poller object: its handlers update the fields in place. Each is one event of the state
    machine of PollRuns and keeps its invariants. `pending` stands for the asynchronous operation waited for, `journal` for the
    event bus and the schedule so far, `replies` for the answers of the running cycle. */
module Polling {
  import opened Octets
  import opened Optional
  import opened Sensors
  import opened ReadPlanner
  import opened RegisterDecode
  import opened PollRuns

  const MAX_QUANTITY := 125
  const MAX_GAP := 8

  class DevicePoller {
    const sensors: seq<Sensor>
    const blocks: seq<ReadBlock>
    const interval: nat
    var nextTick: nat
    var lastStatus: Option<bool>
    var stopped: bool
    var pending: seq<Task>
    var clock: nat
    var replies: seq<seq<u16>>
    var journal: Journal

    function Config(): Setup { Setup(sensors, blocks, interval) }

    function State(): State
      reads this
    {
      PollRuns.State(nextTick, lastStatus, stopped, pending, clock, replies, journal)
    }

    constructor (sensors: seq<Sensor>, interval: nat)
      ensures this.sensors == sensors && this.interval == interval
      ensures Planned(Config()) && forall b <- blocks :: b.quantity <= MAX_QUANTITY
      ensures State() == Init() && Inv(Config(), State())
    {
      var planned := PlanReads(sensors, MAX_QUANTITY, MAX_GAP);
      this.sensors, this.interval, blocks := sensors, interval, planned;
      nextTick, lastStatus, stopped, pending, clock := 0, None, false, [], 0;
      replies, journal := [], Journal([], [], []);
      new;
      InitInv(Config());
    }

    method PublishStatus(online: bool)
      modifies this`lastStatus, this`journal
      ensures State() == StatusPublished(old(State()), online)
    {
      if lastStatus == Some(online) { return; }
      lastStatus := Some(online);
      journal := journal.(published := journal.published + [Status(online)]);
    }

    method FinishCycle(values: Values, stamp: int)
      modifies this
      ensures State() == CycleFinished(old(State()), values, stamp)
    {
      PublishStatus(true);
      ghost var before := State();
      for i := 0 to |values|
        invariant State() == Published(before, ReadingsOf(values, i, stamp))
      {
        if values[i].Some? {
          journal := journal.(published := journal.published + [Reading(i, values[i].value, stamp)]);
        }
      }
      journal := journal.(cycles := journal.cycles + [Cycle(replies, stamp)]);
      replies := [];
      pending := pending + [Scheduling];
    }

    method FailCycle(connected: bool)
      modifies this
      ensures State() == CycleFailed(old(State()), connected)
    {
      journal := journal.(published := journal.published + [PollError]);
      PublishStatus(connected);
      replies := [];
      pending := pending + [Scheduling];
    }

    method ReadBlock(block: nat, values: Values, stamp: int)
      modifies this
      ensures State() == BlockRead(Config(), old(State()), block, values, stamp)
    {
      if block >= |blocks| {
        FinishCycle(values, stamp);
        return;
      }
      pending := pending + [Requesting(block, values)];
    }

    method RunCycle(connected: bool, stamp: int)
      modifies this
      ensures State() == CycleRun(Config(), old(State()), connected, stamp)
    {
      if stopped { return; }
      if !connected {
        pending := pending + [Connecting];
        return;
      }
      ReadBlock(0, seq(|sensors|, _ => None), stamp);
    }

    method Start(now: nat, connected: bool, stamp: int)
      requires Inv(Config(), State()) && Enabled(Config(), State(), Event.Start(now, connected, stamp))
      modifies this
      ensures State() == Next(Config(), old(State()), Event.Start(now, connected, stamp)) && Inv(Config(), State())
    {
      StepInv(Config(), State(), Event.Start(now, connected, stamp));
      hide Inv;
      clock := now;
      nextTick := now;
      journal := journal.(ticks := [Tick(now, now)]);
      RunCycle(connected, stamp);
    }

    method Stop()
      requires Inv(Config(), State())
      modifies this`stopped
      ensures State() == Next(Config(), old(State()), Event.Stop) && Inv(Config(), State())
    {
      StepInv(Config(), State(), Event.Stop);
      hide Inv;
      stopped := true;
    }

    method OnTimer(aborted: bool, now: nat, connected: bool, stamp: int)
      requires Inv(Config(), State()) && Enabled(Config(), State(), TimerFires(aborted, now, connected, stamp))
      modifies this
      ensures State() == Next(Config(), old(State()), TimerFires(aborted, now, connected, stamp)) && Inv(Config(), State())
    {
      StepInv(Config(), State(), TimerFires(aborted, now, connected, stamp));
      hide Inv;
      pending := pending[1..];
      clock := now;
      if !aborted {
        RunCycle(connected, stamp);
      }
    }

    method OnConnected(ok: bool, connected: bool, stamp: int)
      requires Inv(Config(), State()) && Enabled(Config(), State(), Connected(ok, connected, stamp))
      modifies this
      ensures State() == Next(Config(), old(State()), Connected(ok, connected, stamp)) && Inv(Config(), State())
    {
      StepInv(Config(), State(), Connected(ok, connected, stamp));
      hide Inv;
      pending := pending[1..];
      if stopped { return; }
      if !ok {
        FailCycle(connected);
        return;
      }
      ReadBlock(0, seq(|sensors|, _ => None), stamp);
    }

    method OnReply(result: Option<seq<u16>>, connected: bool, stamp: int)
      requires Planned(Config()) && Inv(Config(), State()) && Enabled(Config(), State(), Replied(result, connected, stamp))
      modifies this
      ensures State() == Next(Config(), old(State()), Replied(result, connected, stamp)) && Inv(Config(), State())
    {
      hide Inv, Planned, Enabled, Next, BlockRead, CycleFailed, Updated, Within;
      ReplyFacts(Config(), State(), Replied(result, connected, stamp));
      StepInv(Config(), State(), Replied(result, connected, stamp));
      var task := pending[0];
      pending := pending[1..];
      if stopped { return; }
      if result.None? {
        FailCycle(connected);
        return;
      }
      var values := Store(blocks[task.block], task.values, result.value);
      replies := replies + [result.value];
      ReadBlock(task.block + 1, values, stamp);
    }

    /** Writes the values of the block's sensors over the ones collected so far. */
    method Store(done: ReadPlanner.ReadBlock, was: Values, registers: seq<u16>) returns (values: Values)
      requires |was| == |sensors| && Within(sensors, done.indices)
      ensures values == Updated(Config(), done, was, registers)
    {
      values := was;
      for n := 0 to |done.indices|
        invariant |values| == |was|
        invariant forall i | 0 <= i < |was| ::
                    values[i] == if i in done.indices[..n] then ExtractValue(done, registers, sensors[i]) else was[i]
      {
        values := values[done.indices[n] := ExtractValue(done, registers, sensors[done.indices[n]])];
        assert done.indices[..n + 1] == done.indices[..n] + [done.indices[n]];
      }
      assert done.indices[..|done.indices|] == done.indices;
    }

    method ScheduleNext(now: nat)
      requires Inv(Config(), State()) && Enabled(Config(), State(), Schedule(now))
      modifies this
      ensures State() == Next(Config(), old(State()), Schedule(now)) && Inv(Config(), State())
    {
      StepInv(Config(), State(), Schedule(now));
      hide Inv;
      pending := pending[1..];
      clock := now;
      if stopped { return; }
      nextTick := nextTick + interval;
      if nextTick < now {
        nextTick := now + interval;
      }
      journal := journal.(ticks := journal.ticks + [Tick(nextTick, now)]);
      pending := pending + [Timer];
    }
  }

  /** What handling a reply may rely on and amounts to. */
  lemma ReplyFacts(p: Setup, s: State, e: Event)
    requires Planned(p) && Enabled(p, s, e) && e.Replied?
    ensures s.pending != [] && s.pending[0].Requesting?
    ensures s.pending[0].block < |p.blocks| && |s.pending[0].values| == |p.sensors|
    ensures Within(p.sensors, p.blocks[s.pending[0].block].indices)
    ensures Next(p, s, e) == ReplyHandled(p, Popped(s), s.pending[0].block, s.pending[0].values, e.result,
                                          e.connected, e.stamp)
  {
    hide ReplyHandled, EachOnce, Indices;
  }
}
