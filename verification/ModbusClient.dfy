/** The client object: its calls and handlers update the fields in place. Each is one event of the
    state machine of ModbusRuns and keeps its invariants, so whatever holds of every run there
    holds of the object. The fields `link`, `op`, `waits` and `log` stand for the socket, the
    pending asynchronous operation, the timer's queued waits and the calls and callbacks made. */
module Modbus {
  import opened Octets
  import opened Optional
  import Codec = FrameCodec
  import opened ModbusRuns

  class ModbusClient {
    var connected: bool
    var timedOut: bool
    var deadlineGeneration: nat
    var nextTransactionId: u16
    var readBuffer: seq<byte>
    var link: Link
    var op: Op
    var waits: set<nat>
    var log: Log

    function State(): State
      reads this
    {
      ModbusRuns.State(Client(connected, timedOut, deadlineGeneration, nextTransactionId, readBuffer),
                       link, op, waits, log)
    }

    constructor ()
      ensures State() == Init() && Inv(State())
    {
      connected, timedOut, deadlineGeneration, nextTransactionId, readBuffer := false, false, 0, 1, [];
      link, op, waits, log := DOWN, Idle, {}, Log([], [], []);
    }

    method ArmDeadline()
      modifies this
      ensures State() == Armed(old(State()))
    {
      timedOut := false;
      deadlineGeneration := deadlineGeneration + 1;
      waits := waits + {deadlineGeneration};
    }

    method DisarmDeadline()
      modifies this
      ensures State() == Disarmed(old(State()))
    {
      deadlineGeneration := deadlineGeneration + 1;
    }

    method CloseSocket()
      modifies this
      ensures State() == Closed(old(State()))
    {
      link := DOWN;
      op := Aborted(op);
      connected := false;
    }

    /** The callback of the pending call fires. */
    method Fire(result: Result)
      requires !op.Idle?
      modifies this
      ensures State() == Fired(old(State()), result)
    {
      log := log.(callbacks := log.callbacks + [Callback(op.serial, result)]);
      op := Idle;
    }

    method OnDeadline(generation: nat, aborted: bool)
      requires Inv(State()) && generation in waits && (aborted ==> generation != deadlineGeneration)
      modifies this
      ensures Enabled(old(State()), Deadline(generation, aborted))
      ensures State() == Next(old(State()), Deadline(generation, aborted)) && Inv(State())
    {
      StepInv(State(), Deadline(generation, aborted));
      hide Inv;
      waits := waits - {generation};
      if aborted || generation != deadlineGeneration { return; }
      timedOut := true;
      if op.Running? && op.stage.Resolve? {
        op := Done(op.serial, op.job, Resolve, false);
      }
      CloseSocket();
    }

    method Connect()
      requires Inv(State()) && op.Idle?
      modifies this
      ensures Enabled(old(State()), CallConnect)
      ensures State() == Next(old(State()), CallConnect) && Inv(State())
    {
      StepInv(State(), CallConnect);
      hide Inv;
      var serial := |log.issued|;
      log := log.(issued := log.issued + [ConnectJob]);
      CloseSocket();
      ArmDeadline();
      op := Running(serial, ConnectJob, Resolve);
    }

    method OnResolved()
      requires Inv(State()) && op.Done? && op.stage.Resolve?
      modifies this
      ensures Enabled(old(State()), Handle)
      ensures State() == Next(old(State()), Handle) && Inv(State())
    {
      HandleInv(State());
      hide Inv, Enabled;
      if !op.ok {
        DisarmDeadline();
        Fire(Connected(false));
        return;
      }
      op := Running(op.serial, op.job, Stage.Connect);
    }

    method OnConnected()
      requires Inv(State()) && op.Done? && op.stage.Connect?
      modifies this
      ensures Enabled(old(State()), Handle)
      ensures State() == Next(old(State()), Handle) && Inv(State())
    {
      HandleInv(State());
      hide Inv, Enabled;
      DisarmDeadline();
      if !op.ok {
        CloseSocket();
        Fire(Connected(false));
        return;
      }
      connected := true;
      Fire(Connected(true));
    }

    /** read_holding_registers, read_input_registers and write_single_register. */
    method Call(unit: byte, operation: Codec.FunctionCode, start: u16, quantityOrValue: u16)
      requires Inv(State()) && op.Idle?
      modifies this
      ensures Enabled(old(State()), CallRequest(unit, operation, start, quantityOrValue))
      ensures State() == Next(old(State()), CallRequest(unit, operation, start, quantityOrValue)) && Inv(State())
    {
      StepInv(State(), CallRequest(unit, operation, start, quantityOrValue));
      hide Inv;
      var request := Codec.Request(nextTransactionId, unit, operation, start, quantityOrValue);
      nextTransactionId := (nextTransactionId + 1) % 0x1_0000;
      SendRequest(request);
    }

    method SendRequest(request: Codec.Request)
      requires op.Idle?
      modifies this
      ensures var was := Issued(old(State()), RequestJob(request));
              State() == if !old(connected) then
                           was.(log := was.log.(callbacks := was.log.callbacks
                                                             + [Callback(|old(log).issued|, Error(NotConnected))]))
                         else Started(Armed(was), |old(log).issued|, RequestJob(request), Write)
    {
      var serial := |log.issued|;
      log := log.(issued := log.issued + [RequestJob(request)]);
      if !connected {
        log := log.(callbacks := log.callbacks + [Callback(serial, Error(NotConnected))]);
        return;
      }
      ArmDeadline();
      op := if link.up then Running(serial, RequestJob(request), Write) else Done(serial, RequestJob(request), Write, false);
    }

    method OnWritten()
      requires Inv(State()) && op.Done? && op.stage.Write?
      modifies this
      ensures Enabled(old(State()), Handle)
      ensures State() == Next(old(State()), Handle) && Inv(State())
    {
      HandleInv(State());
      hide Inv, Enabled;
      if !op.ok {
        DisarmDeadline();
        CloseSocket();
        Fire(Error(WriteFailed));
        return;
      }
      readBuffer := [];
      StartRead(Header);
    }

    /** Starts an asynchronous read for the pending request. */
    method StartRead(stage: Stage)
      requires op.Done?
      modifies this
      ensures State() == Started(old(State()), old(op).serial, old(op).job, stage)
    {
      op := if link.up then Running(op.serial, op.job, stage) else Done(op.serial, op.job, stage, false);
    }

    method OnHeader()
      requires Inv(State()) && op.Done? && op.stage.Header?
      modifies this
      ensures Enabled(old(State()), Handle)
      ensures State() == Next(old(State()), Handle) && Inv(State())
    {
      HandleInv(State());
      hide Inv, Enabled;
      if !op.ok {
        DisarmDeadline();
        CloseSocket();
        Fire(Error(HeaderFailed));
        return;
      }
      var total := Codec.ExpectedFrameLength(readBuffer);
      if total.None? || total.value < |readBuffer| + 1 || total.value > 7 + 253 {
        DisarmDeadline();
        CloseSocket();
        Fire(Error(MalformedHeader));
        return;
      }
      StartRead(Body);
    }

    method OnBody()
      requires Inv(State()) && op.Done? && op.stage.Body?
      modifies this
      ensures Enabled(old(State()), Handle)
      ensures State() == Next(old(State()), Handle) && Inv(State())
    {
      HandleInv(State());
      hide Inv, Enabled;
      DisarmDeadline();
      if !op.ok {
        CloseSocket();
        Fire(Error(BodyFailed));
        return;
      }
      var response := Codec.DecodeResponse(readBuffer);
      if response.None? {
        CloseSocket();
        Fire(Error(Undecodable));
        return;
      }
      if response.value.transactionId != op.job.request.transactionId {
        CloseSocket();
        Fire(Error(IdMismatch));
        return;
      }
      if response.value.isException {
        Fire(Error(DeviceException(response.value.exceptionCode)));
        return;
      }
      var request, registers := op.job.request, response.value.registers;
      if !request.operation.WriteSingle? && |registers| < request.quantityOrValue {
        Fire(Error(ShortResponse));
        return;
      }
      Fire(Registers(registers));
    }

    method Close()
      requires Inv(State())
      modifies this
      ensures Enabled(old(State()), CallClose)
      ensures State() == Next(old(State()), CallClose) && Inv(State())
    {
      StepInv(State(), CallClose);
      hide Inv;
      DisarmDeadline();
      CloseSocket();
    }
  }
}
