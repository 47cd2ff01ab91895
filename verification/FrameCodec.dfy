/** Modbus TCP frames: requests out, responses in. Multi-byte fields are big-endian. */
module FrameCodec {
  import opened Octets
  import opened Optional

  const HEADER := 7
  const EXCEPTION_BIT := 0x80

  datatype FunctionCode = ReadHolding | ReadInput | WriteSingle {
    function Code(): byte { match this case ReadHolding => 3 case ReadInput => 4 case WriteSingle => 6 }
  }

  function FunctionOf(code: byte): Option<FunctionCode> {
    if code == 3 then Some(ReadHolding) else if code == 4 then Some(ReadInput)
    else if code == 6 then Some(WriteSingle) else None
  }

  /** The codes of section 6 of the MODBUS Application Protocol, and that no other is known. */
  lemma FunctionCodes(code: byte)
    ensures ReadHolding.Code() == 3 && ReadInput.Code() == 4 && WriteSingle.Code() == 6
    ensures FunctionOf(code).Some? <==> code in {3, 4, 6}
    ensures FunctionOf(code).Some? ==> FunctionOf(code).value.Code() == code
  {}

  datatype Request = Request(transactionId: u16, unit: byte, operation: FunctionCode, start: u16, quantityOrValue: u16)

  datatype Response = Response(transactionId: u16, unit: byte, operation: FunctionCode, isException: bool,
                               exceptionCode: byte, registers: seq<u16>)

  // ---------------------------------------------------------------------
  // Words
  // ---------------------------------------------------------------------

  function Word(value: u16): seq<byte> { [value / 256, value % 256] }

  function Words(values: seq<u16>): seq<byte> {
    if values == [] then [] else Word(values[0]) + Words(values[1..])
  }

  function ReadWord(buffer: seq<byte>, offset: nat): u16
    requires offset + 2 <= |buffer|
  {
    var high: nat, low: nat := buffer[offset], buffer[offset + 1];
    256 * high + low
  }

  lemma {:induction false} WordsLayout(values: seq<u16>)
    ensures |Words(values)| == 2 * |values|
    ensures forall k | 0 <= k < |values| :: ReadWord(Words(values), 2 * k) == values[k]
  {
    if values != [] {
      WordsLayout(values[1..]);
      var rest := Words(values[1..]);
      forall k | 0 <= k < |values| ensures ReadWord(Words(values), 2 * k) == values[k] {
        if k > 0 {
          assert ReadWord(rest, 2 * (k - 1)) == values[1..][k - 1];
          assert Words(values)[2 * k] == rest[2 * k - 2] && Words(values)[2 * k + 1] == rest[2 * k - 1];
        }
      }
    }
  }

  /** Bytes are determined by the words they spell. */
  lemma {:induction false} WordsOfReads(data: seq<byte>, values: seq<u16>)
    requires |data| == 2 * |values|
    requires forall k | 0 <= k < |values| :: ReadWord(data, 2 * k) == values[k]
    ensures data == Words(values)
  {
    WordsLayout(values);
    forall p | 0 <= p < |data| ensures data[p] == Words(values)[p] {
      var k := p / 2;
      assert ReadWord(data, 2 * k) == ReadWord(Words(values), 2 * k);
      ReadWordInjective(data, Words(values), 2 * k);
    }
  }

  lemma ReadWordInjective(a: seq<byte>, b: seq<byte>, offset: nat)
    requires offset + 2 <= |a| && offset + 2 <= |b| && ReadWord(a, offset) == ReadWord(b, offset)
    ensures a[offset] == b[offset] && a[offset + 1] == b[offset + 1]
  {}

  // ---------------------------------------------------------------------
  // The layout the standard prescribes
  // ---------------------------------------------------------------------

  /** The MBAP header around a PDU: transaction, protocol 0, length (unit and PDU), unit. */
  function Frame(transactionId: u16, unit: byte, pdu: seq<byte>): seq<byte>
    requires |pdu| + 1 < 0x1_0000
  {
    Word(transactionId) + Word(0) + Word(|pdu| + 1) + [unit] + pdu
  }

  function RequestFrame(r: Request): seq<byte> {
    Frame(r.transactionId, r.unit, [r.operation.Code()] + Word(r.start) + Word(r.quantityOrValue))
  }

  /** Responses a device may send to a read request. */
  ghost predicate ReadReply(r: Response) {
    && !r.operation.WriteSingle? && !r.isException && r.exceptionCode == 0 && 1 <= |r.registers| <= 125
  }

  ghost predicate ExceptionReply(r: Response) { r.isException && r.registers == [] }

  function ReplyPdu(r: Response): seq<byte> {
    if r.isException then [r.operation.Code() + EXCEPTION_BIT, r.exceptionCode]
    else [r.operation.Code(), (2 * |r.registers|) % 256] + Words(r.registers)
  }

  /** The frame a device sends for a read or exception response. */
  function ReplyFrame(r: Response): (frame: seq<byte>)
    requires ReadReply(r) || ExceptionReply(r)
  {
    WordsLayout(r.registers);
    Frame(r.transactionId, r.unit, ReplyPdu(r))
  }

  /** The frame a device sends for a write: it echoes address and value. */
  function WriteFrame(transactionId: u16, unit: byte, address: u16, value: u16): seq<byte> {
    Frame(transactionId, unit, [WriteSingle.Code()] + Word(address) + Word(value))
  }

  // ---------------------------------------------------------------------
  // Encoding requests
  // ---------------------------------------------------------------------

  method PushWord(buffer: seq<byte>, value: u16) returns (extended: seq<byte>)
    ensures extended == buffer + Word(value)
  {
    extended := buffer + [value / 256];
    extended := extended + [value % 256];
  }

  method EncodeRequest(r: Request) returns (buffer: seq<byte>)
    ensures buffer == RequestFrame(r)
    ensures buffer == [r.transactionId / 256, r.transactionId % 256, 0, 0, 0, 6, r.unit,
                       r.operation.Code(),
                       r.start / 256, r.start % 256, r.quantityOrValue / 256, r.quantityOrValue % 256]
  {
    var pduLength := 5;
    var lengthField := pduLength + 1;
    buffer := PushWord([], r.transactionId);
    buffer := PushWord(buffer, 0);
    buffer := PushWord(buffer, lengthField);
    buffer := buffer + [r.unit];
    buffer := buffer + [r.operation.Code()];
    buffer := PushWord(buffer, r.start);
    buffer := PushWord(buffer, r.quantityOrValue);
  }

  /** What a device reads out of a request frame. */
  function ParseRequest(frame: seq<byte>): Option<Request> {
    if |frame| != 12 || ReadWord(frame, 2) != 0 || ReadWord(frame, 4) != 6 then None
    else
      var f := FunctionOf(frame[7]);
      if f.None? then None
      else Some(Request(ReadWord(frame, 0), frame[6], f.value, ReadWord(frame, 8), ReadWord(frame, 10)))
  }

  /** The device reads back exactly the request that was encoded. */
  lemma RequestRoundTrip(r: Request)
    ensures ParseRequest(RequestFrame(r)) == Some(r)
  {
    var f := RequestFrame(r);
    assert f == [r.transactionId / 256, r.transactionId % 256, 0, 0, 0, 6, r.unit, r.operation.Code(),
                 r.start / 256, r.start % 256, r.quantityOrValue / 256, r.quantityOrValue % 256];
  }

  // ---------------------------------------------------------------------
  // Decoding responses
  // ---------------------------------------------------------------------

  /** Total frame length announced by a header, if it is a plausible one. */
  function ExpectedFrameLength(header: seq<byte>): (length: Option<nat>)
    ensures length.Some? ==> 8 <= length.value <= 260
  {
    if |header| < HEADER || ReadWord(header, 2) != 0 then None
    else
      var lengthField := ReadWord(header, 4);
      if lengthField < 2 || lengthField > 254 then None else Some(6 + lengthField)
  }

  /** What a complete frame means; None for anything malformed. */
  function Decode(buffer: seq<byte>): Option<Response> {
    var total := ExpectedFrameLength(buffer);
    if total.None? || |buffer| != total.value then None
    else
      var isException := buffer[7] >= EXCEPTION_BIT;
      var f := FunctionOf(buffer[7] % EXCEPTION_BIT);
      if f.None? then None
      else
        var bare := Response(ReadWord(buffer, 0), buffer[6], f.value, isException, 0, []);
        if isException then if |buffer| != 9 then None else Some(bare.(exceptionCode := buffer[8]))
        else if f.value.WriteSingle? then
          if |buffer| != 12 then None else Some(bare.(registers := [ReadWord(buffer, 10)]))
        else if |buffer| < 9 then None
        else
          var byteCount: nat := buffer[8];
          if byteCount == 0 || byteCount > 250 || byteCount % 2 != 0 || |buffer| != 9 + byteCount then None
          else Some(bare.(registers := seq(byteCount / 2, k requires 0 <= k < byteCount / 2 => ReadWord(buffer, 9 + 2 * k))))
  }

  method DecodeResponse(buffer: seq<byte>) returns (r: Option<Response>)
    ensures r == Decode(buffer)
  {
    var total := ExpectedFrameLength(buffer);
    if total.None? || |buffer| != total.value { return None; }
    var isException := buffer[7] >= EXCEPTION_BIT;
    var f := FunctionOf(buffer[7] % EXCEPTION_BIT);
    if f.None? { return None; }
    var response := Response(ReadWord(buffer, 0), buffer[6], f.value, isException, 0, []);
    if isException {
      if total.value != 9 { return None; }
      return Some(response.(exceptionCode := buffer[8]));
    }
    match f.value
    case ReadHolding | ReadInput =>
      if total.value < 9 { return None; }
      var byteCount: nat := buffer[8];
      if byteCount == 0 || byteCount > 250 || byteCount % 2 != 0 || total.value != 9 + byteCount { return None; }
      var registers: seq<u16> := [];
      for k := 0 to byteCount / 2
        invariant |registers| == k
        invariant forall m | 0 <= m < k :: registers[m] == ReadWord(buffer, 9 + 2 * m)
      {
        registers := registers + [ReadWord(buffer, 9 + 2 * k)];
      }
      assert registers == seq(byteCount / 2, k requires 0 <= k < byteCount / 2 => ReadWord(buffer, 9 + 2 * k));
      return Some(response.(registers := registers));
    case WriteSingle =>
      if total.value != 12 { return None; }
      return Some(response.(registers := [ReadWord(buffer, 10)]));
  }

  // ---------------------------------------------------------------------
  // Encoding and decoding undo each other
  // ---------------------------------------------------------------------

  lemma FrameLayout(transactionId: u16, unit: byte, pdu: seq<byte>)
    requires |pdu| + 1 < 0x1_0000
    ensures var f := Frame(transactionId, unit, pdu);
            && |f| == 7 + |pdu| && ReadWord(f, 0) == transactionId && ReadWord(f, 2) == 0
            && ReadWord(f, 4) == |pdu| + 1 && f[6] == unit && f[7..] == pdu
  {}

  lemma ReplyWords(r: Response, f: seq<byte>)
    requires ReadReply(r) && |ReplyPdu(r)| == 2 + 2 * |r.registers| && |f| == 9 + 2 * |r.registers|
    requires f[7..] == ReplyPdu(r)
    ensures forall k | 0 <= k < |r.registers| :: ReadWord(f, 9 + 2 * k) == r.registers[k]
  {
    WordsLayout(r.registers);
    var pdu := ReplyPdu(r);
    forall k | 0 <= k < |r.registers| ensures ReadWord(f, 9 + 2 * k) == r.registers[k] {
      assert ReadWord(Words(r.registers), 2 * k) == r.registers[k];
      assert f[7..][2 + 2 * k] == pdu[2 + 2 * k] && f[7..][3 + 2 * k] == pdu[3 + 2 * k];
    }
  }

  /** Where each field of a read response lies. */
  lemma ReplyLayout(r: Response)
    requires ReadReply(r)
    ensures var f, n := ReplyFrame(r), |r.registers|;
            && |f| == 9 + 2 * n
            && f[..9] == [r.transactionId / 256, r.transactionId % 256, 0, 0, (3 + 2 * n) / 256, (3 + 2 * n) % 256,
                          r.unit, r.operation.Code(), 2 * n]
            && forall k | 0 <= k < n :: f[9 + 2 * k] == r.registers[k] / 256 && f[10 + 2 * k] == r.registers[k] % 256
  {
    WordsLayout(r.registers);
    var f, pdu := ReplyFrame(r), ReplyPdu(r);
    FrameLayout(r.transactionId, r.unit, pdu);
    ReplyWords(r, f);
    forall k | 0 <= k < |r.registers|
      ensures f[9 + 2 * k] == r.registers[k] / 256 && f[10 + 2 * k] == r.registers[k] % 256
    {
      assert ReadWord(f, 9 + 2 * k) == r.registers[k];
    }
    assert f[7] == pdu[0] && f[8] == pdu[1];
  }

  /** And of an exception response. */
  lemma ExceptionLayout(r: Response)
    requires ExceptionReply(r)
    ensures ReplyFrame(r) == [r.transactionId / 256, r.transactionId % 256, 0, 0, 0, 3,
                              r.unit, r.operation.Code() + 0x80, r.exceptionCode]
  {}

  /** Exactly the headers that announce a length: protocol zero and a length field from 2 to 254. */
  lemma AnnouncedExactly(h: seq<byte>)
    ensures ExpectedFrameLength(h).Some? <==>
              |h| >= 7 && h[2] == 0 && h[3] == 0 && 2 <= 256 * (h[4] as int) + h[5] <= 254
    ensures ExpectedFrameLength(h).Some? ==> ExpectedFrameLength(h).value == 6 + (256 * (h[4] as int) + h[5])
  {}

  /** Decoding what the standard says a device sends gives the response it meant. */
  lemma ReplyRoundTrip(r: Response)
    requires ReadReply(r) || ExceptionReply(r)
    ensures Decode(ReplyFrame(r)) == Some(r)
  {
    WordsLayout(r.registers);
    var pdu, f := ReplyPdu(r), ReplyFrame(r);
    FrameLayout(r.transactionId, r.unit, pdu);
    assert f[7] == pdu[0] && f[8] == pdu[1];
    if !r.isException {
      ReplyWords(r, f);
      hide Frame, ReplyFrame, ReadWord, Words;
      var n := |r.registers|;
      assert seq(n, k requires 0 <= k < n => ReadWord(f, 9 + 2 * k)) == r.registers;
    }
  }

  lemma WriteRoundTrip(transactionId: u16, unit: byte, address: u16, value: u16)
    ensures Decode(WriteFrame(transactionId, unit, address, value))
         == Some(Response(transactionId, unit, WriteSingle, false, 0, [value]))
  {
    var pdu := [WriteSingle.Code()] + Word(address) + Word(value);
    FrameLayout(transactionId, unit, pdu);
    var f := WriteFrame(transactionId, unit, address, value);
    assert f[7] == pdu[0] && f[10] == pdu[3] && f[11] == pdu[4];
  }

  /** A header that announces the length and the PDU behind it rebuild the frame. */
  lemma FrameOf(buffer: seq<byte>)
    requires ExpectedFrameLength(buffer) == Some(|buffer|)
    ensures buffer == Frame(ReadWord(buffer, 0), buffer[6], buffer[7..])
  {
    FrameLayout(ReadWord(buffer, 0), buffer[6], buffer[7..]);
    var f := Frame(ReadWord(buffer, 0), buffer[6], buffer[7..]);
    hide Frame;
    ReadWordInjective(buffer, f, 0);
    ReadWordInjective(buffer, f, 2);
    ReadWordInjective(buffer, f, 4);
    forall p | 0 <= p < |buffer| ensures buffer[p] == f[p] {
      if p >= 7 { assert buffer[p] == buffer[7..][p - 7] && f[p] == f[7..][p - 7]; }
    }
  }

  /** Every accepted read or exception buffer is the one frame of its response. */
  lemma DecodeCanonical(buffer: seq<byte>)
    requires Decode(buffer).Some?
    ensures var r := Decode(buffer).value;
            && (r.isException || !r.operation.WriteSingle? <==> ReadReply(r) || ExceptionReply(r))
            && (ReadReply(r) || ExceptionReply(r) ==> ReplyFrame(r) == buffer)
            && (!ReadReply(r) && !ExceptionReply(r) ==> |r.registers| == 1 && exists a: u16 :: IsWrite(buffer, r, a))
  {
    var r := Decode(buffer).value;
    FrameOf(buffer);
    var data := buffer[7..];
    if r.isException {
      assert data == ReplyPdu(r);
    } else if r.operation.WriteSingle? {
      var a := ReadWord(buffer, 8);
      assert data == [6] + Word(a) + Word(r.registers[0]);
      assert IsWrite(buffer, r, a);
    } else {
      hide Frame;
      forall k | 0 <= k < |r.registers| ensures ReadWord(data[2..], 2 * k) == r.registers[k] {
        assert data[2..][2 * k] == buffer[9 + 2 * k] && data[2..][2 * k + 1] == buffer[10 + 2 * k];
      }
      WordsOfReads(data[2..], r.registers);
      assert data == ReplyPdu(r);
    }
  }

  /** The buffer is the write response that echoes this address. */
  ghost predicate IsWrite(buffer: seq<byte>, r: Response, address: u16) {
    |r.registers| == 1 && buffer == WriteFrame(r.transactionId, r.unit, address, r.registers[0])
  }

  /** No accepted frame is a proper prefix of another. */
  lemma PrefixFree(a: seq<byte>, b: seq<byte>)
    requires Decode(a).Some? && Decode(b).Some? && a <= b
    ensures a == b
  {
    assert ReadWord(a, 4) == ReadWord(b, 4);
  }

  // ---------------------------------------------------------------------
  // Frames on a byte stream
  // ---------------------------------------------------------------------

  /** Reads one frame off a stream: the seven header bytes, then what they announce. */
  function TakeFrame(stream: seq<byte>): Option<(seq<byte>, seq<byte>)> {
    if |stream| < HEADER then None
    else
      var total := ExpectedFrameLength(stream[..HEADER]);
      if total.None? || |stream| < total.value then None
      else Some((stream[..total.value], stream[total.value..]))
  }

  function Concat(frames: seq<seq<byte>>): seq<byte> {
    if frames == [] then [] else frames[0] + Concat(frames[1..])
  }

  /** All frames at the head of a stream, and what is left. */
  function SplitStream(stream: seq<byte>): (seq<seq<byte>>, seq<byte>)
    decreases |stream|
  {
    var first := TakeFrame(stream);
    if first.None? then ([], stream)
    else
      var (frames, rest) := SplitStream(first.value.1);
      ([first.value.0] + frames, rest)
  }

  lemma TakeFirst(frame: seq<byte>, rest: seq<byte>)
    requires Decode(frame).Some?
    ensures TakeFrame(frame + rest) == Some((frame, rest))
  {
    var stream := frame + rest;
    assert ReadWord(stream[..HEADER], 2) == ReadWord(frame, 2) && ReadWord(stream[..HEADER], 4) == ReadWord(frame, 4);
    assert stream[..|frame|] == frame && stream[|frame|..] == rest;
  }

  /** Any concatenation of valid frames, followed by an incomplete one, splits back into them. */
  lemma {:induction false} StreamSplits(frames: seq<seq<byte>>, rest: seq<byte>)
    requires forall f <- frames :: Decode(f).Some?
    requires TakeFrame(rest).None?
    ensures SplitStream(Concat(frames) + rest) == (frames, rest)
  {
    hide Decode, TakeFrame;
    if frames == [] {
      assert [] + rest == rest;
    } else {
      var f := frames[0];
      assert f in frames;
      TakeFirst(f, Concat(frames[1..]) + rest);
      assert Concat(frames) + rest == f + (Concat(frames[1..]) + rest);
      StreamSplits(frames[1..], rest);
      assert [f] + frames[1..] == frames;
    }
  }
}
