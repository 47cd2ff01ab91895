/** From raw 16-bit registers to engineering values, and why reading sensors in batches gives
    what reading each of them alone would give. */
module RegisterDecode {
  import opened Octets
  import opened Optional
  import opened Sensors
  import opened ReadPlanner
  import Codec = FrameCodec

  // ---------------------------------------------------------------------
  // Raw values
  // ---------------------------------------------------------------------

  /** Two's complement. */
  function Signed(bits: nat, modulus: nat): int {
    if 2 * bits < modulus then bits else bits - modulus
  }

  function Power(exponent: int): (p: real)
    ensures p > 0.0
    decreases if exponent < 0 then -exponent else exponent
  {
    if exponent == 0 then 1.0 else if exponent > 0 then 2.0 * Power(exponent - 1) else Power(exponent + 1) / 2.0
  }

  /** The number an IEEE 754 single-precision pattern stands for; None for NaN and infinities. */
  function Single(bits: u32): Option<real> {
    var sign := if bits >= 0x8000_0000 then -1.0 else 1.0;
    var exponent := bits / 0x80_0000 % 256;
    var fraction := bits % 0x80_0000;
    if exponent == 255 then None
    else if exponent == 0 then Some(sign * fraction as real * Power(-149))
    else Some(sign * (0x80_0000 + fraction) as real * Power(exponent - 150))
  }

  function Bits(registers: seq<u16>, order: WordOrder): u32
    requires |registers| == 2
  {
    var high: nat, low: nat :=
      if order.BigWord? then registers[0] else registers[1], if order.BigWord? then registers[1] else registers[0];
    0x1_0000 * high + low
  }

  /** One or two registers as a number; None when the pattern is not a finite number. */
  function DecodeRaw(registers: seq<u16>, dataType: DataType, order: WordOrder): Option<real>
    requires |registers| == if dataType.Uint16? || dataType.Int16? then 1 else 2
  {
    match dataType
    case Uint16 => Some(registers[0] as real)
    case Int16 => Some(Signed(registers[0], 0x1_0000) as real)
    case Uint32 => Some(Bits(registers, order) as real)
    case Int32 => Some(Signed(Bits(registers, order), 0x1_0000_0000) as real)
    case Float32 => Single(Bits(registers, order))
  }

  /** Scale and offset, over the reals; a value that is not finite stays None. */
  function Scaled(raw: Option<real>, s: Sensor): Option<real> {
    if raw.None? then None else Some(raw.value * s.scale + s.offset)
  }

  /** One sensor's value out of a block's registers; None if the response is too short for it. */
  function ExtractValue(b: ReadBlock, registers: seq<u16>, s: Sensor): Option<real> {
    if s.address < b.start || s.address - b.start + s.Count() > |registers| then None
    else
      var at := s.address - b.start;
      Scaled(DecodeRaw(registers[at..at + s.Count()], s.dataType, s.wordOrder), s)
  }

  // ---------------------------------------------------------------------
  // Decoding undoes how a device stores a number
  // ---------------------------------------------------------------------

  /** The registers of a device that holds the given bit pattern. */
  function Stored(bits: u32, dataType: DataType, order: WordOrder): seq<u16> {
    if dataType.Uint16? || dataType.Int16? then [bits % 0x1_0000]
    else if order.BigWord? then [bits / 0x1_0000, bits % 0x1_0000]
    else [bits % 0x1_0000, bits / 0x1_0000]
  }

  function Low(dataType: DataType): int {
    match dataType case Int16 => -0x8000 case Int32 => -0x8000_0000 case _ => 0
  }

  function Modulus(dataType: DataType): nat {
    if dataType.Uint16? || dataType.Int16? then 0x1_0000 else 0x1_0000_0000
  }

  /** Every integer in the type's range comes back, in either word order. */
  lemma IntegerRoundTrip(n: int, dataType: DataType, order: WordOrder)
    requires !dataType.Float32? && Low(dataType) <= n < Low(dataType) + Modulus(dataType)
    ensures DecodeRaw(Stored(n % Modulus(dataType), dataType, order), dataType, order) == Some(n as real)
  {
    var bits := n % Modulus(dataType);
    assert bits == if n < 0 then n + Modulus(dataType) else n;
    if !dataType.Uint16? && !dataType.Int16? {
      assert Bits(Stored(bits, dataType, order), order) == bits;
    }
  }

  /** Every finite single-precision number comes back, in either word order. */
  lemma SingleRoundTrip(bits: u32, order: WordOrder)
    ensures DecodeRaw(Stored(bits, Float32, order), Float32, order) == Single(bits)
    ensures Single(bits).None? <==> bits / 0x80_0000 % 256 == 255
  {}

  /** A power of two, for any exponent. */
  lemma PowerDoubles(e: int)
    ensures Power(0) == 1.0 && Power(e + 1) == 2.0 * Power(e)
  {}

  /** The gap between a pattern with this exponent field and the next. */
  function Gap(exponent: nat): real { Power((if exponent > 1 then exponent else 1) - 150) }

  /** These three facts fix the value of every finite pattern: zero stands for zero, the sign bit
      negates, and each pattern is one unit of its exponent above the one before. */
  lemma SinglePinned(bits: u32)
    ensures Single(0) == Some(0.0)
    ensures bits < 0x8000_0000 && Single(bits).Some? ==> Single(bits + 0x8000_0000) == Some(-Single(bits).value)
    ensures bits + 1 < 0x8000_0000 && Single(bits).Some? && Single(bits + 1).Some? ==>
              Single(bits + 1).value - Single(bits).value == Gap(bits / 0x80_0000)
  {
    hide Single, Gap, Magnitude;
    SingleAt(false, 0, 0);
    NoMagnitude();
    if bits < 0x8000_0000 {
      var e, f := Fields(bits);
      SingleAt(false, e, f);
      SingleAt(true, e, f);
      if bits + 1 < 0x8000_0000 && e < 255 {
        NextMagnitude(e, f);
        if f + 1 < 0x80_0000 { SingleAt(false, e, f + 1); } else { SingleAt(false, e + 1, 0); }
      }
    }
  }

  function Product(a: real, b: real): real { a * b }

  /** The number without its sign. */
  function Magnitude(e: nat, f: nat): real {
    Product(if e == 0 then f as real else (0x80_0000 + f) as real, Power((if e > 1 then e else 1) - 150))
  }

  lemma Fields(bits: u32) returns (e: nat, f: nat)
    requires bits < 0x8000_0000
    ensures e == bits / 0x80_0000 < 256 && f < 0x80_0000 && bits == e * 0x80_0000 + f
  {
    e, f := bits / 0x80_0000, bits % 0x80_0000;
  }

  lemma SingleAt(negative: bool, e: nat, f: nat)
    requires e < 256 && f < 0x80_0000
    ensures var x := Single((if negative then 0x8000_0000 else 0) + e * 0x80_0000 + f);
            && (x.Some? <==> e < 255)
            && (x.Some? ==> x.value == if negative then -Magnitude(e, f) else Magnitude(e, f))
  {
    hide Power, Product;
    var bits := (if negative then 0x8000_0000 else 0) + e * 0x80_0000 + f;
    FieldsOf(negative, e, f);
    assert bits >= 0x8000_0000 <==> negative;
    Negated(if e == 0 then f as real else (0x80_0000 + f) as real, Power((if e > 1 then e else 1) - 150));
  }

  lemma FieldsOf(negative: bool, e: nat, f: nat)
    requires e < 256 && f < 0x80_0000
    ensures var bits := (if negative then 0x8000_0000 else 0) + e * 0x80_0000 + f;
            bits / 0x80_0000 % 256 == e && bits % 0x80_0000 == f && (bits >= 0x8000_0000 <==> negative)
  {
    var bits := (if negative then 0x8000_0000 else 0) + e * 0x80_0000 + f;
    var high := e + if negative then 256 else 0;
    assert bits == high * 0x80_0000 + f;
    assert bits / 0x80_0000 == high && bits % 0x80_0000 == f;
  }

  lemma Negated(a: real, b: real)
    ensures -1.0 * a * b == -Product(a, b) && 1.0 * a * b == Product(a, b)
  {}

  lemma NoMagnitude()
    ensures Magnitude(0, 0) == 0.0
  {
    hide Power;
  }

  lemma NextMagnitude(e: nat, f: nat)
    requires e < 255 && f < 0x80_0000
    ensures (if f + 1 < 0x80_0000 then Magnitude(e, f + 1) else Magnitude(e + 1, 0)) - Magnitude(e, f) == Gap(e)
  {
    hide Power, Product;
    var power := Power((if e > 1 then e else 1) - 150);
    if f + 1 < 0x80_0000 {
      UnitStep(if e == 0 then f as real else (0x80_0000 + f) as real, power);
    } else if e == 0 {
      UnitStep(f as real, power);
    } else {
      PowerDoubles(e - 150);
      DoubledStep((0x80_0000 + f) as real, power);
    }
  }

  lemma UnitStep(a: real, power: real)
    ensures Product(a + 1.0, power) - Product(a, power) == power
  {}

  lemma DoubledStep(a: real, power: real)
    requires a + 1.0 == 2.0 * 8388608.0
    ensures Product(8388608.0, 2.0 * power) - Product(a, power) == power
  {}

  /** The patterns of 1 and -2, and of an infinity. */
  lemma SingleExamples()
    ensures Single(0x3F80_0000) == Some(1.0)
    ensures Single(0xC000_0000) == Some(-2.0)
    ensures Single(0x7F80_0000).None?
  {
    SmallPowers();
    hide Power;
    assert 0x3F80_0000 / 0x80_0000 % 256 == 127 && 0xC000_0000 / 0x80_0000 % 256 == 128;
  }

  lemma SmallPowers()
    ensures 8388608.0 * Power(-23) == 1.0 && 8388608.0 * Power(-22) == 2.0
  {
    PowerSplit(-23, 23);
    PowerOf23();
    var e := -23;
    assert Power(e + 1) == 2.0 * Power(e);
  }

  lemma {:induction false} PowerSplit(a: int, b: nat)
    ensures Power(a + b) == Power(a) * Power(b)
    decreases b
  {
    if b > 0 {
      PowerSplit(a, b - 1);
      assert Power(a + b) == 2.0 * Power(a + b - 1);
    }
  }

  lemma PowerOf23()
    ensures Power(23) == 8388608.0
  {
    assert Power(4) == 16.0;
    assert Power(8) == 256.0;
    assert Power(12) == 4096.0;
    assert Power(16) == 65536.0;
    assert Power(20) == 1048576.0;
  }

  // ---------------------------------------------------------------------
  // Batched reads
  // ---------------------------------------------------------------------

  /** The registers a device holds. */
  type Memory = (Table, nat) -> u16

  function ReadRange(memory: Memory, table: Table, start: nat, quantity: nat): (registers: seq<u16>)
    ensures |registers| == quantity
  {
    seq(quantity, k requires 0 <= k < quantity => memory(table, start + k))
  }

  /** The value of one sensor, read alone. */
  function DirectValue(memory: Memory, s: Sensor): Option<real> {
    Scaled(DecodeRaw(ReadRange(memory, s.table, s.address, s.Count()), s.dataType, s.wordOrder), s)
  }

  function ReadCode(table: Table): Codec.FunctionCode {
    if table.Holding? then Codec.ReadHolding else Codec.ReadInput
  }

  function ReadRequest(b: ReadBlock, transactionId: u16, unit: byte): Codec.Request
    requires b.start < 0x1_0000 && b.quantity < 0x1_0000
  {
    Codec.Request(transactionId, unit, ReadCode(b.table), b.start, b.quantity)
  }

  /** How a conforming device answers a read of registers it has. */
  function Answer(memory: Memory, request: Codec.Request): Codec.Response {
    var table := if request.operation.ReadHolding? then Holding else Input;
    Codec.Response(request.transactionId, request.unit, request.operation, false, 0,
                   ReadRange(memory, table, request.start, request.quantityOrValue))
  }

  /** A planned request is one a device may answer, the answer is accepted, and every sensor
      of the block gets from it exactly the value it would get from a read of its own. */
  lemma BatchedReadIsDirect(sensors: seq<Sensor>, b: ReadBlock, memory: Memory, transactionId: u16, unit: byte)
    requires Exact(sensors, b) && b.quantity <= 125 && forall s <- sensors :: s.End() <= 0x1_0000
    ensures b.start < 0x1_0000 && 1 <= b.quantity && b.End() <= 0x1_0000
    ensures var request := ReadRequest(b, transactionId, unit);
            var reply := Answer(memory, request);
            && Codec.ParseRequest(Codec.RequestFrame(request)) == Some(request)
            && Codec.ReadReply(reply) && Codec.Decode(Codec.ReplyFrame(reply)) == Some(reply)
            && |reply.registers| == b.quantity
            && forall i <- b.indices :: ExtractValue(b, reply.registers, sensors[i]) == DirectValue(memory, sensors[i])
  {
    BlocksStayInRange(sensors, b);
    var request := ReadRequest(b, transactionId, unit);
    var reply := Answer(memory, request);
    Codec.RequestRoundTrip(request);
    Codec.ReplyRoundTrip(reply);
    forall i | i in b.indices ensures ExtractValue(b, reply.registers, sensors[i]) == DirectValue(memory, sensors[i]) {
      ExtractIsDirect(sensors[i], b, memory);
    }
  }

  lemma ExtractIsDirect(s: Sensor, b: ReadBlock, memory: Memory)
    requires b.start <= s.address && s.End() <= b.End() && s.table == b.table
    ensures ExtractValue(b, ReadRange(memory, b.table, b.start, b.quantity), s) == DirectValue(memory, s)
  {
    var at := s.address - b.start;
    assert ReadRange(memory, b.table, b.start, b.quantity)[at..at + s.Count()]
        == ReadRange(memory, s.table, s.address, s.Count());
  }

  /** The registers of the block that hold the sensor's value. */
  ghost predicate HeldAt(b: ReadBlock, registers: seq<u16>, s: Sensor, held: seq<u16>) {
    && b.start <= s.address && s.End() <= b.start + |registers|
    && registers[s.address - b.start..s.End() - b.start] == held
  }

  /** An integer the device stores comes out scaled and offset. */
  lemma IntegerExtracted(b: ReadBlock, registers: seq<u16>, s: Sensor, n: int)
    requires !s.dataType.Float32? && Low(s.dataType) <= n < Low(s.dataType) + Modulus(s.dataType)
    requires HeldAt(b, registers, s, Stored(n % Modulus(s.dataType), s.dataType, s.wordOrder))
    ensures ExtractValue(b, registers, s).Some? && ExtractValue(b, registers, s).value == n as real * s.scale + s.offset
  {
    hide DecodeRaw, Stored;
    IntegerRoundTrip(n, s.dataType, s.wordOrder);
    HeldIsExtracted(b, registers, s, Stored(n % Modulus(s.dataType), s.dataType, s.wordOrder));
  }

  /** And so does a floating-point number, unless the pattern is none. */
  lemma SingleExtracted(b: ReadBlock, registers: seq<u16>, s: Sensor, bits: u32)
    requires s.dataType.Float32? && HeldAt(b, registers, s, Stored(bits, Float32, s.wordOrder))
    ensures ExtractValue(b, registers, s).Some? <==> Single(bits).Some?
    ensures Single(bits).Some? ==> ExtractValue(b, registers, s).value == Single(bits).value * s.scale + s.offset
  {
    hide DecodeRaw, Stored, Single;
    SingleRoundTrip(bits, s.wordOrder);
    HeldIsExtracted(b, registers, s, Stored(bits, Float32, s.wordOrder));
  }

  lemma HeldIsExtracted(b: ReadBlock, registers: seq<u16>, s: Sensor, held: seq<u16>)
    requires HeldAt(b, registers, s, held)
    ensures |held| == s.Count()
    ensures var raw := DecodeRaw(held, s.dataType, s.wordOrder);
            && (ExtractValue(b, registers, s).Some? <==> raw.Some?)
            && (raw.Some? ==> ExtractValue(b, registers, s).value == raw.value * s.scale + s.offset)
  {
    hide DecodeRaw, Scaled;
    var at := s.address - b.start;
    assert at + s.Count() == s.End() - b.start;
    assert registers[at..at + s.Count()] == held;
    ScaledIs(DecodeRaw(held, s.dataType, s.wordOrder), s);
  }

  lemma ScaledIs(raw: Option<real>, s: Sensor)
    ensures Scaled(raw, s).Some? <==> raw.Some?
    ensures raw.Some? ==> Scaled(raw, s).value == raw.value * s.scale + s.offset
  {}

  /** A value is missing exactly when the response does not reach it or it is not a number. */
  lemma MissingExactlyWhen(b: ReadBlock, registers: seq<u16>, s: Sensor)
    ensures ExtractValue(b, registers, s).None? <==>
              || s.address < b.start || s.End() > b.start + |registers|
              || (s.dataType.Float32? && s.address - b.start + 2 <= |registers|
                  && Bits(registers[s.address - b.start..][..2], s.wordOrder) / 0x80_0000 % 256 == 255)
  {
    if b.start <= s.address && s.End() <= b.start + |registers| {
      var at := s.address - b.start;
      assert registers[at..at + s.Count()] == registers[at..][..s.Count()];
    }
  }
}
