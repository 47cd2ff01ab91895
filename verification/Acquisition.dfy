/** Client, codec and decoder together: what a read through the client delivers when the device
    answers it conformingly. */
module Acquisition {
  import opened Octets
  import opened Optional
  import opened Sensors
  import opened ReadPlanner
  import opened RegisterDecode
  import Codec = FrameCodec
  import Runs = ModbusRuns

  /** The device's answer to this call, if it gave one, is its conforming answer out of `memory`
      or one the client turns down. */
  ghost predicate Conforms(s: Runs.State, serial: nat, memory: Memory, request: Codec.Request) {
    forall a <- s.log.answers :: a.serial == serial ==>
      a.frame == Codec.ReplyFrame(Bounded(memory, request)) || Rejected(a.frame, request)
  }

  /** Malformed, an exception, for another request or too short. */
  predicate Rejected(frame: seq<byte>, request: Codec.Request) {
    var r := Codec.Decode(frame);
    || r.None? || r.value.isException || r.value.transactionId != request.transactionId
    || (!request.operation.WriteSingle? && |r.value.registers| < request.quantityOrValue)
  }

  /** The conforming answer; a request no device may answer gets a fixed exception. */
  function Bounded(memory: Memory, request: Codec.Request): (r: Codec.Response)
    ensures Codec.ReadReply(r) || Codec.ExceptionReply(r)
  {
    var r := Answer(memory, request);
    if !r.operation.WriteSingle? && 1 <= |r.registers| <= 125 then r
    else Codec.Response(request.transactionId, request.unit, request.operation, true, 3, [])
  }

  /** If a read of a planned block delivered registers, and the device's answer to that one
      request was conforming or rejected (whatever it did with others), they are the registers of the block, and every
      sensor of the block decodes from them to the value a read of its own would give. */
  lemma DeliveredIsDirect(s: Runs.State, serial: nat, sensors: seq<Sensor>, b: ReadBlock, memory: Memory,
                          id: u16, unit: byte)
    requires Runs.Inv(s)
    requires Exact(sensors, b) && b.quantity <= 125 && forall s <- sensors :: s.End() <= 0x1_0000
    requires b.start < 0x1_0000
    requires serial < |s.log.callbacks| && serial < |s.log.issued| && s.log.callbacks[serial].result.Registers?
    requires s.log.issued[serial] == Runs.RequestJob(ReadRequest(b, id, unit))
    requires Conforms(s, serial, memory, ReadRequest(b, id, unit))
    ensures var values := s.log.callbacks[serial].result.values;
            && values == ReadRange(memory, b.table, b.start, b.quantity)
            && forall i <- b.indices :: ExtractValue(b, values, sensors[i]) == DirectValue(memory, sensors[i])
  {
    hide Codec.Decode, Codec.ReplyFrame, Runs.Streams, Runs.Timers, Runs.InOrder;
    var request := ReadRequest(b, id, unit);
    BatchedReadIsDirect(sensors, b, memory, id, unit);
    var c := s.log.callbacks[serial];
    assert Runs.Genuine(s.log, c);
    var a :| a in s.log.answers && Runs.AnswersWith(a, c, request);
    assert Bounded(memory, request) == Answer(memory, request);
  }

  /** In every run of the client. */
  lemma DeliveredReadIsDirect(events: seq<Runs.Event>, serial: nat, sensors: seq<Sensor>, b: ReadBlock,
                              memory: Memory, id: u16, unit: byte)
    requires Runs.Execution(Runs.Init(), events)
    requires Exact(sensors, b) && b.quantity <= 125 && forall s <- sensors :: s.End() <= 0x1_0000
    requires b.start < 0x1_0000
    requires var s := Runs.After(Runs.Init(), events);
             && serial < |s.log.callbacks| && serial < |s.log.issued|
             && s.log.callbacks[serial].result.Registers?
             && s.log.issued[serial] == Runs.RequestJob(ReadRequest(b, id, unit))
             && Conforms(s, serial, memory, ReadRequest(b, id, unit))
    ensures var values := Runs.After(Runs.Init(), events).log.callbacks[serial].result.values;
            && values == ReadRange(memory, b.table, b.start, b.quantity)
            && forall i <- b.indices :: ExtractValue(b, values, sensors[i]) == DirectValue(memory, sensors[i])
  {
    hide Runs.Execution, Runs.After, Runs.Inv;
    Runs.InitInv();
    Runs.RunInv(Runs.Init(), events);
    DeliveredIsDirect(Runs.After(Runs.Init(), events), serial, sensors, b, memory, id, unit);
  }
}
