/** CRC-32C (section 12.1 of RFC 3720): the table-driven loop and the eight-bytes-at-a-time
    loop both compute the bit-serial remainder, and a change confined to 32 consecutive bits
    always changes the checksum. */
module Crc32c {
  import opened Bytes
  import opened Octets

  const POLYNOMIAL: bv32 := 0x82F63B78
  const ALL_ONES: bv32 := 0xFFFF_FFFF

  // ---------------------------------------------------------------------
  // Bit-serial definition
  // ---------------------------------------------------------------------

  // Bit-vector operators are wrapped in functions so that proofs above this level are
  // plain equational reasoning.
  function Xor(a: bv32, b: bv32): bv32 { a ^ b }
  function Half(a: bv32): bv32 { a >> 1 }
  predicate Odd(a: bv32) { a & 1 == 1 }
  function Bit(b: bool): bv32 { if b then 1 else 0 }

  /** One step of division by the reflected polynomial. */
  function BitStep(crc: bv32): bv32 {
    if Odd(crc) then Xor(Half(crc), POLYNOMIAL) else Half(crc)
  }

  function Steps(crc: bv32, n: nat): bv32
    decreases n
  {
    if n == 0 then crc else Steps(BitStep(crc), n - 1)
  }

  /** The k low-order bits of n, least significant first: the order in which they are sent. */
  function Bits(n: nat, k: nat): (bits: seq<bool>)
    ensures |bits| == k
    decreases k
  {
    if k == 0 then [] else [n % 2 == 1] + Bits(n / 2, k - 1)
  }

  /** Feeds message bits one at a time into the shift register. */
  function Serial(crc: bv32, bits: seq<bool>): bv32
    decreases |bits|
  {
    if bits == [] then crc
    else Serial(BitStep(Xor(crc, Bit(bits[0]))), bits[1..])
  }

  function MessageBits(data: seq<byte>): (bits: seq<bool>)
    ensures |bits| == 8 * |data|
  {
    if data == [] then [] else Bits(data[0], 8) + MessageBits(data[1..])
  }

  /** The register after the whole message, from an arbitrary starting state. */
  function Update(crc: bv32, data: seq<byte>): bv32 {
    Serial(crc, MessageBits(data))
  }

  /** The checksum: register preset to all ones, complemented at the end. */
  function Checksum(data: seq<byte>): bv32 {
    Xor(Update(ALL_ONES, data), ALL_ONES)
  }

  lemma {:induction false} SerialConcat(crc: bv32, a: seq<bool>, b: seq<bool>)
    ensures Serial(crc, a + b) == Serial(Serial(crc, a), b)
    decreases |a|
  {
    if a == [] {
      assert a + b == b;
    } else {
      assert (a + b)[1..] == a[1..] + b;
      SerialConcat(BitStep(Xor(crc, Bit(a[0]))), a[1..], b);
    }
  }

  lemma {:induction false} MessageBitsConcat(a: seq<byte>, b: seq<byte>)
    ensures MessageBits(a + b) == MessageBits(a) + MessageBits(b)
  {
    if a == [] {
      assert a + b == b;
    } else {
      assert (a + b)[1..] == a[1..] + b;
      MessageBitsConcat(a[1..], b);
    }
  }

  lemma UpdateConcat(crc: bv32, a: seq<byte>, b: seq<byte>)
    ensures Update(crc, a + b) == Update(Update(crc, a), b)
  {
    MessageBitsConcat(a, b);
    SerialConcat(crc, MessageBits(a), MessageBits(b));
  }

  // ---------------------------------------------------------------------
  // Linearity and injectivity of the register
  // ---------------------------------------------------------------------

  lemma XorCommutes(a: bv32, b: bv32)
    ensures Xor(a, b) == Xor(b, a)
  {}

  lemma XorAssociates(a: bv32, b: bv32, c: bv32)
    ensures Xor(Xor(a, b), c) == Xor(a, Xor(b, c))
  {}

  lemma XorZero(a: bv32)
    ensures Xor(a, 0) == a && Xor(a, a) == 0
  {}

  lemma XorHalf(a: bv32, b: bv32)
    ensures Half(Xor(a, b)) == Xor(Half(a), Half(b))
    ensures Odd(Xor(a, b)) <==> (Odd(a) != Odd(b))
  {}

  lemma XorSwap(a: bv32, b: bv32, p: bv32)
    ensures Xor(Xor(a, p), b) == Xor(Xor(a, b), p)
  {
    hide Xor;
    XorAssociates(a, p, b);
    XorAssociates(a, b, p);
    XorCommutes(p, b);
  }

  lemma XorCancel(a: bv32, b: bv32, p: bv32)
    ensures Xor(Xor(a, p), Xor(b, p)) == Xor(a, b)
  {
    hide Xor;
    XorAssociates(a, p, Xor(b, p));
    XorCommutes(b, p);
    XorAssociates(p, p, b);
    XorZero(p);
    XorZero(b);
    XorCommutes(0, b);
  }

  lemma XorInjective(a: bv32, b: bv32, c: bv32)
    requires Xor(a, c) == Xor(b, c) || Xor(c, a) == Xor(c, b)
    ensures a == b
  {}

  lemma BitStepXor(a: bv32, b: bv32)
    ensures BitStep(Xor(a, b)) == Xor(BitStep(a), BitStep(b))
  {
    hide Xor, Half, Odd;
    XorHalf(a, b);
    XorCancel(Half(a), Half(b), POLYNOMIAL);
    XorSwap(Half(a), Half(b), POLYNOMIAL);
    XorAssociates(Half(a), Half(b), POLYNOMIAL);
  }

  lemma {:induction false} StepsXor(a: bv32, b: bv32, n: nat)
    ensures Steps(Xor(a, b), n) == Xor(Steps(a, n), Steps(b, n))
    decreases n
  {
    hide Xor, BitStep;
    if n > 0 {
      BitStepXor(a, b);
      StepsXor(BitStep(a), BitStep(b), n - 1);
    }
  }

  // The top bit of the result tells whether the polynomial was subtracted, so a step can be undone.
  lemma BitStepInjective(a: bv32, b: bv32)
    requires BitStep(a) == BitStep(b)
    ensures a == b
  {}

  lemma {:induction false} StepsInjective(a: bv32, b: bv32, n: nat)
    requires Steps(a, n) == Steps(b, n)
    ensures a == b
    decreases n
  {
    hide BitStep;
    if n > 0 {
      StepsInjective(BitStep(a), BitStep(b), n - 1);
      BitStepInjective(a, b);
    }
  }

  // ---------------------------------------------------------------------
  // One byte at a time
  // ---------------------------------------------------------------------

  function Shift8(a: bv32): bv32 { a >> 8 }
  function Low8(a: bv32): bv32 { a & 0xFF }
  function Word(b: byte): bv32 { Widen(b as bv8) }

  lemma StepsEight(a: bv32)
    ensures Steps(a, 8) == BitStep(BitStep(BitStep(BitStep(BitStep(BitStep(BitStep(BitStep(a))))))))
  {
    hide BitStep;
    assert Steps(a, 8) == Steps(BitStep(BitStep(a)), 6);
    assert Steps(BitStep(BitStep(a)), 6) == Steps(BitStep(BitStep(BitStep(BitStep(a)))), 4);
    assert Steps(BitStep(BitStep(BitStep(BitStep(a)))), 4)
        == Steps(BitStep(BitStep(BitStep(BitStep(BitStep(BitStep(a)))))), 2);
  }

  lemma EvenStep(a: bv32)
    requires !Odd(a)
    ensures BitStep(a) == a >> 1
  {}

  lemma EvenSteps2(a: bv32)
    requires a & 3 == 0
    ensures BitStep(BitStep(a)) == a >> 2
  {
    hide BitStep;
    EvenStep(a);
    EvenStep(a >> 1);
  }

  lemma EvenSteps4(a: bv32)
    requires a & 15 == 0
    ensures BitStep(BitStep(BitStep(BitStep(a)))) == a >> 4
  {
    hide BitStep;
    EvenSteps2(a);
    EvenSteps2(a >> 2);
  }

  lemma HighBytesShift(a: bv32)
    requires Low8(a) == 0
    ensures Steps(a, 8) == Shift8(a)
  {
    StepsEight(a);
    hide Steps, BitStep;
    EvenSteps4(a);
    EvenSteps4(a >> 4);
  }

  function HalfByte(c: bv8): bv8 { c >> 1 }
  predicate OddByte(c: bv8) { c & 1 == 1 }

  predicate Fits(c: bv8, k: nat)
    decreases k
  {
    if k == 0 then c == 0 else Fits(HalfByte(c), k - 1)
  }

  lemma AllFit(c: bv8)
    ensures Fits(c, 8)
  {
    var c2 := HalfByte(HalfByte(c));
    var c4 := HalfByte(HalfByte(c2));
    var c6 := HalfByte(HalfByte(c4));
    assert HalfByte(HalfByte(c6)) == 0;
    assert Fits(c6, 2);
    assert Fits(c4, 4);
    assert Fits(c2, 6);
  }

  function Widen(c: bv8): bv32 { c as bv32 }
  function Value(c: bv8): nat { c as int }

  lemma SplitByte(c: bv8)
    ensures Widen(c) == Xor(Bit(OddByte(c)), Widen(c & 0xFE))
    ensures !Odd(Widen(c & 0xFE)) && Widen(c & 0xFE) >> 1 == Widen(HalfByte(c))
  {}

  lemma FeedLowBit(crc: bv32, c: bv8)
    ensures BitStep(Xor(crc, Widen(c))) == Xor(BitStep(Xor(crc, Bit(OddByte(c)))), Widen(HalfByte(c)))
  {
    hide Xor, BitStep, Bit;
    var low := Bit(OddByte(c));
    SplitByte(c);
    XorAssociates(crc, low, Widen(c & 0xFE));
    BitStepXor(Xor(crc, low), Widen(c & 0xFE));
    EvenStep(Widen(c & 0xFE));
  }

  lemma HalveByte(c: bv8)
    ensures Value(HalfByte(c)) == Value(c) / 2
    ensures OddByte(c) <==> Value(c) % 2 == 1
  {
    HalveBits(c);
  }

  lemma {:induction false} SerialByte(crc: bv32, c: bv8, k: nat)
    requires Fits(c, k)
    ensures Serial(crc, Bits(Value(c), k)) == Steps(Xor(crc, Widen(c)), k)
    decreases k
  {
    hide Xor, BitStep, Bit, HalfByte, OddByte, Value;
    if k == 0 {
      XorZero(crc);
    } else {
      HalveByte(c);
      FeedLowBit(crc, c);
      assert Bits(Value(c), k)[1..] == Bits(Value(HalfByte(c)), k - 1);
      SerialByte(BitStep(Xor(crc, Bit(OddByte(c)))), HalfByte(c), k - 1);
    }
  }

  /** A whole byte can be added to the register before its eight steps. */
  lemma UpdateByte(crc: bv32, b: byte)
    ensures Update(crc, [b]) == Steps(Xor(crc, Word(b)), 8)
  {
    hide Xor, BitStep, Steps;
    AllFit(b as bv8);
    ByteAsBits(b);
    SerialByte(crc, b as bv8, 8);
    assert [b][1..] == [];
    assert MessageBits([b]) == Bits(b, 8);
  }

  lemma SplitWord(a: bv32)
    ensures a == Xor(Low8(a), a & 0xFFFF_FF00) && Low8(a & 0xFFFF_FF00) == 0
    ensures Shift8(a & 0xFFFF_FF00) == Shift8(a)
  {}

  lemma EightSteps(a: bv32)
    ensures Steps(a, 8) == Xor(Steps(Low8(a), 8), Shift8(a))
  {
    hide Xor, Steps;
    SplitWord(a);
    StepsXor(Low8(a), a & 0xFFFF_FF00, 8);
    HighBytesShift(a & 0xFFFF_FF00);
  }

  // ---------------------------------------------------------------------
  // The implementations
  // ---------------------------------------------------------------------

  predicate IsTable(table: seq<bv32>) {
    |table| == 256 && forall i: byte :: table[i] == Steps(Word(i), 8)
  }

  lemma TableBit(crc: bv32)
    ensures BitStep(crc) == if crc & 1 != 0 then (crc >> 1) ^ POLYNOMIAL else crc >> 1
  {}

  method MakeTable() returns (table: array<bv32>)
    ensures fresh(table) && IsTable(table[..])
  {
    table := new bv32[256];
    hide Xor, BitStep;
    for i := 0 to 256
      invariant forall k: byte :: k < i ==> table[k] == Steps(Word(k), 8)
    {
      var crc := Word(i);
      for bit := 0 to 8
        invariant Steps(crc, 8 - bit) == Steps(Word(i), 8)
        invariant forall k: byte :: k < i ==> table[k] == Steps(Word(k), 8)
      {
        TableBit(crc);
        crc := if crc & 1 != 0 then (crc >> 1) ^ POLYNOMIAL else crc >> 1;
      }
      assert crc == Steps(crc, 0) == Steps(Word(i), 8);
      table[i] := crc;
    }
  }

  function Index(a: bv32): byte { (Low8(a) as bv8) as int }

  lemma WordIndex(a: bv32)
    ensures Word(Index(a)) == Low8(a)
  {
    BitsAsByte(Low8(a) as bv8);
  }

  lemma ByteShiftedOut(a: bv32, c: bv8)
    ensures Shift8(Xor(a, Widen(c))) == Shift8(a)
  {}

  lemma TableStep(table: seq<bv32>, crc: bv32, b: byte)
    requires IsTable(table)
    ensures Xor(table[Index(Xor(crc, Word(b)))], Shift8(crc)) == Update(crc, [b])
  {
    hide Xor, Steps, Shift8, Low8, Index;
    var a := Xor(crc, Word(b));
    WordIndex(a);
    ByteShiftedOut(crc, b as bv8);
    EightSteps(a);
    UpdateByte(crc, b);
    assert table[Index(a)] == Steps(Word(Index(a)), 8);
  }

  method Software(data: seq<byte>) returns (checksum: bv32)
    ensures checksum == Checksum(data)
  {
    hide Xor, Steps, Serial;
    var table := MakeTable();
    var crc := ALL_ONES;
    NothingToFeed(crc);
    assert data[..0] == [];
    for i := 0 to |data|
      invariant IsTable(table[..])
      invariant crc == Update(ALL_ONES, data[..i])
    {
      TableStep(table[..], crc, data[i]);
      assert data[..i + 1] == data[..i] + [data[i]];
      UpdateConcat(ALL_ONES, data[..i], [data[i]]);
      crc := Xor(table[Index(Xor(crc, Word(data[i])))], Shift8(crc));
    }
    assert data[..|data|] == data;
    checksum := Xor(crc, ALL_ONES);
  }

  /** The CRC32 instruction on a 64-bit operand: its bits enter least significant first. */
  function CrcU64(crc: bv32, chunk: nat): bv32 { Serial(crc, Bits(chunk, 64)) }

  function CrcU8(crc: bv32, b: byte): bv32 { Serial(crc, Bits(b, 8)) }

  function ShiftUp(n: nat, j: nat): nat { if j == 0 then n else 2 * ShiftUp(n, j - 1) }

  function Pow2(k: nat): nat { if k == 0 then 1 else 2 * Pow2(k - 1) }

  lemma {:induction false} BitsAppend(low: nat, high: nat, j: nat, k: nat)
    requires low < Pow2(j)
    ensures Bits(low + ShiftUp(high, j), j + k) == Bits(low, j) + Bits(high, k)
    decreases j
  {
    if j > 0 {
      var n := low + ShiftUp(high, j);
      assert n % 2 == low % 2 && n / 2 == low / 2 + ShiftUp(high, j - 1);
      BitsAppend(low / 2, high, j - 1, k);
    }
  }

  lemma ByteShift(n: nat)
    ensures ShiftUp(n, 8) == 256 * n && Pow2(8) == 256
  {
    assert ShiftUp(n, 1) == 2 * n && Pow2(1) == 2;
    assert ShiftUp(n, 3) == 8 * n && Pow2(3) == 8;
    assert ShiftUp(n, 5) == 32 * n && Pow2(5) == 32;
    assert ShiftUp(n, 7) == 128 * n && Pow2(7) == 128;
  }

  /** A little-endian load keeps the bits of its bytes in transmission order. */
  lemma {:induction false} LoadBits(data: seq<byte>)
    ensures Bits(FromLittleEndian(data), 8 * |data|) == MessageBits(data)
  {
    hide Bits, ShiftUp, Pow2;
    if data != [] {
      var high := FromLittleEndian(data[1..]);
      LoadBits(data[1..]);
      ByteShift(high);
      BitsAppend(data[0], high, 8, 8 * |data[1..]|);
      assert 8 * |data| == 8 + 8 * |data[1..]|;
    }
  }

  method Sse42(data: seq<byte>) returns (checksum: bv32)
    ensures checksum == Checksum(data)
  {
    hide Xor, Serial, MessageBits, Bits;
    var crc := ALL_ONES;
    var rest := data;
    while |rest| >= 8
      invariant Update(crc, rest) == Update(ALL_ONES, data)
    {
      LoadBits(rest[..8]);
      assert rest == rest[..8] + rest[8..];
      UpdateConcat(crc, rest[..8], rest[8..]);
      crc := CrcU64(crc, FromLittleEndian(rest[..8]));
      rest := rest[8..];
    }
    while |rest| > 0
      invariant Update(crc, rest) == Update(ALL_ONES, data)
    {
      assert rest == [rest[0]] + rest[1..];
      UpdateConcat(crc, [rest[0]], rest[1..]);
      OneByteBits(rest[0]);
      crc := CrcU8(crc, rest[0]);
      rest := rest[1..];
    }
    NothingToFeed(crc);
    checksum := Xor(crc, ALL_ONES);
  }

  lemma OneByteBits(b: byte)
    ensures MessageBits([b]) == Bits(b, 8)
  {
    assert [b][1..] == [];
  }

  lemma NothingToFeed(crc: bv32)
    ensures Update(crc, []) == crc
  {}

  /** Both code paths of the dispatcher return the same checksum, whatever the CPU offers. */
  method Compute(data: seq<byte>, hasSse42: bool) returns (checksum: bv32)
    ensures checksum == Checksum(data)
  {
    if hasSse42 {
      checksum := Sse42(data);
    } else {
      checksum := Software(data);
    }
  }

  // ---------------------------------------------------------------------
  // Error detection
  // ---------------------------------------------------------------------

  lemma {:induction false} SerialInjective(s: bv32, t: bv32, bits: seq<bool>)
    requires Serial(s, bits) == Serial(t, bits)
    ensures s == t
    decreases |bits|
  {
    hide Xor, BitStep, Bit;
    if bits != [] {
      SerialInjective(BitStep(Xor(s, Bit(bits[0]))), BitStep(Xor(t, Bit(bits[0]))), bits[1..]);
      BitStepInjective(Xor(s, Bit(bits[0])), Xor(t, Bit(bits[0])));
      XorInjective(s, t, Bit(bits[0]));
    }
  }

  /** Whatever the message, different registers stay different. */
  lemma UpdateInjective(s: bv32, t: bv32, data: seq<byte>)
    requires Update(s, data) == Update(t, data)
    ensures s == t
  {
    SerialInjective(s, t, MessageBits(data));
  }

  function Up1(a: bv32): bv32 { a << 1 }
  predicate TopClear(a: bv32) { a & 0x8000_0000 == 0 }

  /** Up to 32 message bits as one register-sized word, the first of them lowest. */
  function Pack(bits: seq<bool>): bv32 {
    if bits == [] then 0 else Xor(Bit(bits[0]), Up1(Pack(bits[1..])))
  }

  lemma PackedParts(b: bool, high: bv32)
    requires TopClear(high)
    ensures Odd(Xor(Bit(b), Up1(high))) == b && Half(Xor(Bit(b), Up1(high))) == high
    ensures BitStep(Up1(high)) == high
  {
    hide Xor, Up1, TopClear, Half, Odd, Bit;
    EvenShift(high);
    HalfBit(b);
    XorHalf(Bit(b), Up1(high));
    XorZero(high);
    XorCommutes(high, 0);
  }

  lemma EvenShift(high: bv32)
    requires TopClear(high)
    ensures !Odd(Up1(high)) && Half(Up1(high)) == high
  {}

  lemma HalfBit(b: bool)
    ensures Half(Bit(b)) == 0 && (Odd(Bit(b)) <==> b)
  {}

  /** The word uses no more than k bits. */
  predicate Narrow(a: bv32, k: nat)
    decreases k
  {
    if k == 0 then a == 0 else Narrow(Half(a), k - 1)
  }

  lemma {:induction false} NarrowZero(k: nat)
    ensures Narrow(0, k)
    decreases k
  {
    if k > 0 { NarrowZero(k - 1); }
  }

  lemma {:induction false} NarrowGrows(a: bv32, j: nat, k: nat)
    requires Narrow(a, j) && j <= k
    ensures Narrow(a, k)
    decreases j
  {
    hide Half;
    if j == 0 { NarrowZero(k); } else { NarrowGrows(Half(a), j - 1, k - 1); }
  }

  function Quarter(a: bv32): bv32 { a >> 4 }

  lemma NarrowQuarter(a: bv32, k: nat)
    requires k >= 4 && Narrow(a, k)
    ensures Narrow(Quarter(a), k - 4)
  {
    FourHalves(a);
    hide Half, Quarter;
    assert Narrow(Half(a), k - 1);
    assert Narrow(Half(Half(a)), k - 2);
    assert Narrow(Half(Half(Half(a))), k - 3);
  }

  lemma FourHalves(a: bv32)
    ensures Half(Half(Half(Half(a)))) == Quarter(a)
  {}

  lemma NarrowTop(a: bv32)
    requires Narrow(a, 31)
    ensures TopClear(a)
  {
    var a4, a8, a12, a16, a20, a24 :=
      Quarter(a), Quarter(Quarter(a)), Quarter(Quarter(Quarter(a))), Quarter(Quarter(Quarter(Quarter(a)))),
      Quarter(Quarter(Quarter(Quarter(Quarter(a))))), Quarter(Quarter(Quarter(Quarter(Quarter(Quarter(a))))));
    NarrowQuarter(a, 31);
    NarrowQuarter(a4, 27);
    NarrowQuarter(a8, 23);
    NarrowQuarter(a12, 19);
    NarrowQuarter(a16, 15);
    NarrowQuarter(a20, 11);
    NarrowQuarter(a24, 7);
    var a28 := Quarter(a24);
    assert Narrow(Half(a28), 2) && Narrow(Half(Half(a28)), 1) && Half(Half(Half(a28))) == 0;
    TopGone(a);
  }

  lemma TopGone(a: bv32)
    ensures Half(Half(Half(Quarter(Quarter(Quarter(Quarter(Quarter(Quarter(Quarter(a)))))))))) == 0 ==> TopClear(a)
  {}

  lemma {:induction false} PackNarrow(bits: seq<bool>)
    requires |bits| <= 31
    ensures Narrow(Pack(bits), |bits|) && TopClear(Pack(bits))
  {
    hide Xor, Up1, Half, TopClear;
    if bits != [] {
      PackNarrow(bits[1..]);
      PackedParts(bits[0], Pack(bits[1..]));
    }
    NarrowGrows(Pack(bits), |bits|, 31);
    NarrowTop(Pack(bits));
  }

  /** Up to 32 message bits act on the register as one word added to it before the division. */
  lemma {:induction false} SerialPacked(crc: bv32, bits: seq<bool>)
    requires |bits| <= 32
    ensures Serial(crc, bits) == Steps(Xor(crc, Pack(bits)), |bits|)
    decreases |bits|
  {
    hide Xor, Up1, Bit, BitStep, TopClear;
    if bits == [] {
      XorZero(crc);
    } else {
      var low, high := Bit(bits[0]), Pack(bits[1..]);
      PackNarrow(bits[1..]);
      PackedParts(bits[0], high);
      SerialPacked(BitStep(Xor(crc, low)), bits[1..]);
      XorAssociates(crc, low, Up1(high));
      BitStepXor(Xor(crc, low), Up1(high));
    }
  }

  lemma {:induction false} PackInjective(u: seq<bool>, v: seq<bool>)
    requires |u| == |v| <= 32 && Pack(u) == Pack(v)
    ensures u == v
  {
    hide Xor, Up1, Bit, Half, Odd, TopClear;
    if u != [] {
      PackNarrow(u[1..]);
      PackNarrow(v[1..]);
      PackedParts(u[0], Pack(u[1..]));
      PackedParts(v[0], Pack(v[1..]));
      PackInjective(u[1..], v[1..]);
      assert u == [u[0]] + u[1..] && v == [v[0]] + v[1..];
    }
  }

  lemma {:induction false} BitsInjective(m: nat, n: nat, k: nat)
    requires m < Pow2(k) && n < Pow2(k) && Bits(m, k) == Bits(n, k)
    ensures m == n
    decreases k
  {
    if k > 0 {
      assert Bits(m, k)[0] == (m % 2 == 1) && Bits(n, k)[0] == (n % 2 == 1);
      assert Bits(m, k)[1..] == Bits(m / 2, k - 1) && Bits(n, k)[1..] == Bits(n / 2, k - 1);
      BitsInjective(m / 2, n / 2, k - 1);
    }
  }

  lemma {:induction false} MessageBitsInjective(x: seq<byte>, y: seq<byte>)
    requires |x| == |y| && MessageBits(x) == MessageBits(y)
    ensures x == y
  {
    hide Bits, Pow2;
    if x != [] {
      assert MessageBits(x)[..8] == Bits(x[0], 8) && MessageBits(y)[..8] == Bits(y[0], 8);
      assert MessageBits(x)[8..] == MessageBits(x[1..]) && MessageBits(y)[8..] == MessageBits(y[1..]);
      ByteShift(0);
      BitsInjective(x[0], y[0], 8);
      MessageBitsInjective(x[1..], y[1..]);
      assert x == [x[0]] + x[1..] && y == [y[0]] + y[1..];
    }
  }

  /** The two messages have the same bits but for at most 32 consecutive ones, from number i on in
      the order in which bits are sent. */
  ghost predicate SameOutside(x: seq<byte>, y: seq<byte>, i: nat) {
    && |x| == |y|
    && forall j | 0 <= j < 8 * |x| && (j < i || i + 32 <= j) :: MessageBits(x)[j] == MessageBits(y)[j]
  }

  ghost predicate Burst(x: seq<byte>, y: seq<byte>) {
    x != y && exists i: nat :: SameOutside(x, y, i)
  }

  /** Bits that differ within 32 consecutive ones only leave different registers. */
  lemma SerialBurst(crc: bv32, p: seq<bool>, u: seq<bool>, v: seq<bool>, q: seq<bool>)
    requires |u| == |v| <= 32 && Serial(crc, p + u + q) == Serial(crc, p + v + q)
    ensures u == v
  {
    hide Xor, Serial, Steps, Pack;
    SerialConcat(crc, p + u, q);
    SerialConcat(crc, p + v, q);
    SerialConcat(crc, p, u);
    SerialConcat(crc, p, v);
    var s := Serial(crc, p);
    SerialInjective(Serial(s, u), Serial(s, v), q);
    SerialPacked(s, u);
    SerialPacked(s, v);
    StepsInjective(Xor(s, Pack(u)), Xor(s, Pack(v)), |u|);
    XorInjective(Pack(u), Pack(v), s);
    PackInjective(u, v);
  }

  /** Any change confined to 32 consecutive bits, wherever they start, changes the checksum. */
  lemma BurstDetected(x: seq<byte>, y: seq<byte>)
    requires Burst(x, y)
    ensures Checksum(x) != Checksum(y)
  {
    hide Xor, Serial, MessageBits;
    if Checksum(x) == Checksum(y) {
      var i: nat :| SameOutside(x, y, i);
      var xs, ys := MessageBits(x), MessageBits(y);
      var from := if i < |xs| then i else |xs|;
      var to := if i + 32 < |xs| then i + 32 else |xs|;
      XorInjective(Update(ALL_ONES, x), Update(ALL_ONES, y), ALL_ONES);
      ThreeParts(xs, from, to);
      ThreeParts(ys, from, to);
      assert xs[..from] == ys[..from] && xs[to..] == ys[to..];
      SerialBurst(ALL_ONES, xs[..from], xs[from..to], ys[from..to], xs[to..]);
      MessageBitsInjective(x, y);
      assert false;
    }
  }

  lemma ThreeParts(bits: seq<bool>, from: nat, to: nat)
    requires from <= to <= |bits|
    ensures bits == bits[..from] + bits[from..to] + bits[to..]
  {}

  /** In particular any change within four consecutive bytes. */
  lemma FourBytesAreABurst(before: seq<byte>, a: seq<byte>, b: seq<byte>, after: seq<byte>)
    requires |a| == |b| <= 4 && a != b
    ensures Burst(before + a + after, before + b + after)
  {
    hide MessageBits;
    var x, y := before + a + after, before + b + after;
    assert x[|before|..|before| + |a|] == a && y[|before|..|before| + |a|] == b;
    MessageBitsConcat(before + a, after);
    MessageBitsConcat(before + b, after);
    MessageBitsConcat(before, a);
    MessageBitsConcat(before, b);
    assert SameOutside(x, y, 8 * |before|);
  }

  /** The checksum as the unsigned integer stored in a header. */
  function ChecksumValue(data: seq<byte>): (n: nat)
    ensures n < 0x1_0000_0000
  {
    Checksum(data) as int
  }

  lemma ValueInjective(a: bv32, b: bv32)
    requires a as int == b as int
    ensures a == b
  {
    assert (a as int) as bv32 == a && (b as int) as bv32 == b;
  }

  lemma BurstChangesValue(x: seq<byte>, y: seq<byte>)
    requires Burst(x, y)
    ensures ChecksumValue(x) != ChecksumValue(y)
  {
    hide Checksum, Burst;
    BurstDetected(x, y);
    if ChecksumValue(x) == ChecksumValue(y) {
      ValueInjective(Checksum(x), Checksum(y));
    }
  }

  lemma FeedLiteral(crc: bv32, data: seq<byte>, i: nat, c: bv8, next: bv32)
    requires i < |data| && data[i] as bv8 == c
    requires BitStep(BitStep(BitStep(BitStep(BitStep(BitStep(BitStep(BitStep(Xor(crc, Widen(c)))))))))) == next
    ensures Update(crc, data[i..]) == Update(next, data[i + 1..])
  {
    hide Xor, BitStep, Widen, Update;
    assert data[i..] == [data[i]] + data[i + 1..];
    UpdateConcat(crc, [data[i]], data[i + 1..]);
    UpdateByte(crc, data[i]);
    StepsEight(Xor(crc, Word(data[i])));
  }

  const DIGITS: seq<byte> := [0x31, 0x32, 0x33, 0x34, 0x35, 0x36, 0x37, 0x38, 0x39]

  lemma FirstDigits()
    ensures Update(0xFFFFFFFF, DIGITS[0..]) == Update(0x9C50B11, DIGITS[4..])
  {
    hide Update;
    FeedLiteral(0xFFFFFFFF, DIGITS, 0, 0x31, 0x6F0A661C);
    FeedLiteral(0x6F0A661C, DIGITS, 1, 0x32, 0x8CAA3B9F);
    FeedLiteral(0x8CAA3B9F, DIGITS, 2, 0x33, 0xEF84D04D);
    FeedLiteral(0xEF84D04D, DIGITS, 3, 0x34, 0x9C50B11);
  }

  lemma LastDigits()
    ensures Update(0x9C50B11, DIGITS[4..]) == Update(0x1CF96D7C, DIGITS[9..])
  {
    hide Update;
    FeedLiteral(0x9C50B11, DIGITS, 4, 0x35, 0xE72EDCCA);
    FeedLiteral(0xE72EDCCA, DIGITS, 5, 0x36, 0xBECA8E79);
    FeedLiteral(0xBECA8E79, DIGITS, 6, 0x37, 0xEDBD6815);
    FeedLiteral(0xEDBD6815, DIGITS, 7, 0x38, 0x9F787F65);
    FeedLiteral(0x9F787F65, DIGITS, 8, 0x39, 0x1CF96D7C);
  }

  /** The published check value: the checksum of the digits 1 to 9. */
  lemma CheckValue()
    ensures Checksum([0x31, 0x32, 0x33, 0x34, 0x35, 0x36, 0x37, 0x38, 0x39]) == 0xE306_9283
  {
    hide Update;
    FirstDigits();
    LastDigits();
    assert DIGITS[0..] == DIGITS && DIGITS[9..] == [];
    NothingToFeed(0x1CF96D7C);
  }
}
