/** A byte as an integer and as a bit-vector, and the widths of the wider unsigned integers. */
module Octets {
  type byte = b: int | 0 <= b < 256
  type u16 = n: nat | n < 0x1_0000
  type u32 = n: nat | n < 0x1_0000_0000
  type u64 = n: nat | n < 0x1_0000_0000_0000_0000

  function Double(c: bv8, bit: bool): bv8 { if bit then (c << 1) | 1 else c << 1 }

  lemma DoubleValue(c: bv8, bit: bool)
    requires c as int < 128
    ensures Double(c, bit) as int == 2 * (c as int) + if bit then 1 else 0
  {}

  /** The bit-vector of a byte, assembled bit by bit. */
  function Octet(b: byte): (c: bv8)
    ensures c as int == b
  {
    if b == 0 then 0
    else
      DoubleValue(Octet(b / 2), b % 2 == 1);
      Double(Octet(b / 2), b % 2 == 1)
  }

  lemma ByteAsBits(b: byte)
    ensures (b as bv8) as int == b
  {
    BitsAsByte(Octet(b));
  }

  lemma BitsAsByte(c: bv8)
    ensures (c as int) as bv8 == c
  {}

  lemma HalveBits(c: bv8)
    ensures (c >> 1) as int == (c as int) / 2
    ensures (c & 1 == 1) <==> (c as int) % 2 == 1
  {}
}

/** Bytes and the little-endian layout of unsigned integers: the wire format of the export
    files is the in-memory layout of the structs on a little-endian machine. */
module Bytes {
  import opened Octets
  import Modular

  function Pow256(k: nat): (p: nat)
    ensures p > 0
  {
    if k == 0 then 1 else 256 * Pow256(k - 1)
  }

  /** The k low-order bytes of n, least significant byte first. */
  function LittleEndian(n: nat, k: nat): (bytes: seq<byte>)
    ensures |bytes| == k
    decreases k
  {
    if k == 0 then [] else [n % 256] + LittleEndian(n / 256, k - 1)
  }

  function FromLittleEndian(bytes: seq<byte>): (n: nat)
    ensures n < Pow256(|bytes|)
  {
    if bytes == [] then 0 else bytes[0] + 256 * FromLittleEndian(bytes[1..])
  }

  lemma {:induction false} DecodeEncode(n: nat, k: nat)
    requires n < Pow256(k)
    ensures FromLittleEndian(LittleEndian(n, k)) == n
    decreases k
  {
    if k > 0 {
      DecodeEncode(n / 256, k - 1);
      assert LittleEndian(n, k)[1..] == LittleEndian(n / 256, k - 1);
    }
  }

  lemma {:induction false} EncodeDecode(bytes: seq<byte>)
    ensures LittleEndian(FromLittleEndian(bytes), |bytes|) == bytes
  {
    if bytes != [] {
      EncodeDecode(bytes[1..]);
      var n := FromLittleEndian(bytes);
      assert n % 256 == bytes[0] && n / 256 == FromLittleEndian(bytes[1..]);
      assert bytes == [bytes[0]] + bytes[1..];
    }
  }

  /** Byte i holds the i-th digit to the base 256. */
  lemma {:induction false} LittleEndianDigit(n: nat, k: nat, i: nat)
    requires i < k
    ensures LittleEndian(n, k)[i] == n / Pow256(i) % 256
    decreases i
  {
    if i > 0 {
      LittleEndianDigit(n / 256, k - 1, i - 1);
      DivideTwice(n, Pow256(i - 1));
    }
  }

  lemma DivideTwice(n: nat, b: nat)
    requires b > 0
    ensures n / 256 / b == n / (256 * b)
  {
    var q, r := n / 256, n % 256;
    var p, t := q / b, q % b;
    Regrouped(b, p);
    Modular.QuotientRemainder(n, 256 * b, p, 256 * t + r);
  }

  lemma Regrouped(b: nat, p: nat)
    ensures 256 * (b * p) == p * (256 * b)
  {}

  lemma Pow256Values()
    ensures Pow256(1) == 0x100 && Pow256(2) == 0x1_0000 && Pow256(4) == 0x1_0000_0000
    ensures Pow256(8) == 0x1_0000_0000_0000_0000
  {
    assert Pow256(3) == 0x100_0000;
    assert Pow256(5) == 0x100_0000_0000;
    assert Pow256(6) == 0x1_0000_0000_0000;
    assert Pow256(7) == 0x100_0000_0000_0000;
  }
}
