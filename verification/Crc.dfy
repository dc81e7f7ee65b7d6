/** The RMAP CRC of src/crc.cc. The specification is the bit-serial shift register of section 5.2 of
    ECSS-E-ST-50-52C (x^8 + x^2 + x + 1, bits taken least significant first, so the reflected constant
    is 0xE0); the table-driven loop is proved equal to it. */
module RmapCrc {
  import opened Bytes

  // ---------- the shift register ----------

  /** One clock of the register with no input. */
  function Clock(reg: bv8): bv8 {
    if reg & 1 == 1 then (reg >> 1) ^ 0xE0 else reg >> 1
  }

  function ClockN(n: nat, reg: bv8): bv8 {
    if n == 0 then reg else ClockN(n - 1, Clock(reg))
  }

  function SerialBit(reg: bv8, bit: bool): bv8 {
    Clock(reg ^ (if bit then 1 else 0))
  }

  function Serial(bits: seq<bool>, reg: bv8): bv8 {
    if bits == [] then reg else Serial(bits[1..], SerialBit(reg, bits[0]))
  }

  /** The low n bits of a number, least significant first. */
  function LowBits(x: nat, n: nat): (s: seq<bool>)
    ensures |s| == n
    decreases n, x
  {
    if n == 0 then [] else [x % 2 == 1] + LowBits(x / 2, n - 1)
  }

  /** The bits of a byte, least significant first. */
  function Bits(b: byte): (s: seq<bool>)
    ensures |s| == 8
  {
    LowBits(b, 8)
  }

  function BitsOf(msg: seq<byte>): (s: seq<bool>)
    ensures |s| == 8 * |msg|
  {
    if msg == [] then [] else Bits(msg[0]) + BitsOf(msg[1..])
  }

  function Register(msg: seq<byte>, seed: byte): bv8 {
    Serial(BitsOf(msg), seed as bv8)
  }

  /** Feeding the low n bits of a number, least significant first. */
  function FeedBits(reg: bv8, x: nat, n: nat): bv8
    decreases n, x
  {
    if n == 0 then reg else FeedBits(SerialBit(reg, x % 2 == 1), x / 2, n - 1)
  }

  /** The register after the first n bytes of a message. */
  function FeedBytes(reg: bv8, msg: seq<byte>, n: nat): bv8
    requires n <= |msg|
    decreases n
  {
    if n == 0 then reg else FeedBits(FeedBytes(reg, msg, n - 1), msg[n - 1], 8)
  }

  /** The CRC of a message, started from an arbitrary register value. */
  function CrcFrom(msg: seq<byte>, seed: byte): byte {
    FeedBytes(seed as bv8, msg, |msg|) as int
  }

  function Crc(msg: seq<byte>): byte {
    CrcFrom(msg, 0)
  }

  // ---------- bytes and register values ----------

  lemma ByteOfRegister(x: bv8)
    ensures (x as int) as bv8 == x
  {
  }

  lemma NextRegister(x: bv8)
    requires x < 255
    ensures (x + 1) as int == x as int + 1
  {
  }

  /** Every byte is the number of some register value, hence of the one it converts to. */
  lemma {:induction false} RegisterOfByte(b: byte)
    ensures (b as bv8) as int == b
    decreases b
  {
    var x: bv8 := 0;
    if b != 0 {
      RegisterOfByte(b - 1);
      x := ((b - 1) as bv8) + 1;
      NextRegister((b - 1) as bv8);
    }
    assert x as int == b;
    ByteOfRegister(x);
  }

  lemma LowBitOfRegister(x: bv8)
    ensures x & 1 != 0 <==> (x as int) % 2 == 1
  {
  }

  lemma HalfOfRegister(x: bv8)
    ensures (x >> 1) as int == (x as int) / 2
  {
  }

  lemma LowBitOfByte(b: byte)
    ensures (b as bv8) & 1 != 0 <==> b % 2 == 1
  {
    RegisterOfByte(b);
    LowBitOfRegister(b as bv8);
  }

  lemma HalfOfByte(b: byte)
    ensures (b as bv8) >> 1 == (b / 2) as bv8
  {
    var x := b as bv8;
    RegisterOfByte(b);
    HalfOfRegister(x);
    ByteOfRegister(x >> 1);
  }

  // ---------- composition ----------

  lemma {:induction false} SerialConcat(a: seq<bool>, b: seq<bool>, reg: bv8)
    ensures Serial(a + b, reg) == Serial(b, Serial(a, reg))
  {
    if a == [] {
      assert a + b == b;
    } else {
      assert (a + b)[1..] == a[1..] + b;
      SerialConcat(a[1..], b, SerialBit(reg, a[0]));
    }
  }

  lemma {:induction false} BitsOfConcat(a: seq<byte>, b: seq<byte>)
    ensures BitsOf(a + b) == BitsOf(a) + BitsOf(b)
  {
    if a == [] {
      assert a + b == b;
    } else {
      assert (a + b)[1..] == a[1..] + b;
      BitsOfConcat(a[1..], b);
    }
  }

  lemma {:induction false} FeedBitsIsSerial(reg: bv8, x: nat, n: nat)
    ensures FeedBits(reg, x, n) == Serial(LowBits(x, n), reg)
    decreases n
  {
    if n != 0 {
      assert LowBits(x, n)[1..] == LowBits(x / 2, n - 1);
      FeedBitsIsSerial(SerialBit(reg, x % 2 == 1), x / 2, n - 1);
    }
  }

  lemma {:induction false} FeedBytesIsSerial(reg: bv8, msg: seq<byte>, n: nat)
    requires n <= |msg|
    ensures FeedBytes(reg, msg, n) == Serial(BitsOf(msg[..n]), reg)
    decreases n
  {
    if n != 0 {
      var last := msg[n - 1];
      FeedBytesIsSerial(reg, msg, n - 1);
      FeedBitsIsSerial(FeedBytes(reg, msg, n - 1), last, 8);
      assert msg[..n] == msg[..n - 1] + [last];
      BitsOfConcat(msg[..n - 1], [last]);
      assert BitsOf([last]) == Bits(last);
      SerialConcat(BitsOf(msg[..n - 1]), Bits(last), reg);
    }
  }

  /** The CRC is the shift register run over all the bits of the message. */
  lemma CrcIsRegister(msg: seq<byte>, seed: byte)
    ensures CrcFrom(msg, seed) == Register(msg, seed) as int
    ensures CrcFrom(msg, seed) as bv8 == Register(msg, seed)
  {
    FeedBytesIsSerial(seed as bv8, msg, |msg|);
    assert msg[..|msg|] == msg;
    ByteOfRegister(Register(msg, seed));
  }

  /** The CRC of a concatenation continues from the CRC of the first part. */
  lemma CrcConcat(a: seq<byte>, b: seq<byte>, seed: byte)
    ensures CrcFrom(a + b, seed) == CrcFrom(b, CrcFrom(a, seed))
  {
    BitsOfConcat(a, b);
    SerialConcat(BitsOf(a), BitsOf(b), seed as bv8);
    CrcIsRegister(a, seed);
    CrcIsRegister(a + b, seed);
    CrcIsRegister(b, CrcFrom(a, seed));
  }

  // ---------- the lookup table ----------

  /** The source's 256 entries, sixteen to a row. */
  const ROWS: seq<seq<bv8>> := [
    [0x00, 0x91, 0xe3, 0x72, 0x07, 0x96, 0xe4, 0x75, 0x0e, 0x9f, 0xed, 0x7c, 0x09, 0x98, 0xea, 0x7b],
    [0x1c, 0x8d, 0xff, 0x6e, 0x1b, 0x8a, 0xf8, 0x69, 0x12, 0x83, 0xf1, 0x60, 0x15, 0x84, 0xf6, 0x67],
    [0x38, 0xa9, 0xdb, 0x4a, 0x3f, 0xae, 0xdc, 0x4d, 0x36, 0xa7, 0xd5, 0x44, 0x31, 0xa0, 0xd2, 0x43],
    [0x24, 0xb5, 0xc7, 0x56, 0x23, 0xb2, 0xc0, 0x51, 0x2a, 0xbb, 0xc9, 0x58, 0x2d, 0xbc, 0xce, 0x5f],
    [0x70, 0xe1, 0x93, 0x02, 0x77, 0xe6, 0x94, 0x05, 0x7e, 0xef, 0x9d, 0x0c, 0x79, 0xe8, 0x9a, 0x0b],
    [0x6c, 0xfd, 0x8f, 0x1e, 0x6b, 0xfa, 0x88, 0x19, 0x62, 0xf3, 0x81, 0x10, 0x65, 0xf4, 0x86, 0x17],
    [0x48, 0xd9, 0xab, 0x3a, 0x4f, 0xde, 0xac, 0x3d, 0x46, 0xd7, 0xa5, 0x34, 0x41, 0xd0, 0xa2, 0x33],
    [0x54, 0xc5, 0xb7, 0x26, 0x53, 0xc2, 0xb0, 0x21, 0x5a, 0xcb, 0xb9, 0x28, 0x5d, 0xcc, 0xbe, 0x2f],
    [0xe0, 0x71, 0x03, 0x92, 0xe7, 0x76, 0x04, 0x95, 0xee, 0x7f, 0x0d, 0x9c, 0xe9, 0x78, 0x0a, 0x9b],
    [0xfc, 0x6d, 0x1f, 0x8e, 0xfb, 0x6a, 0x18, 0x89, 0xf2, 0x63, 0x11, 0x80, 0xf5, 0x64, 0x16, 0x87],
    [0xd8, 0x49, 0x3b, 0xaa, 0xdf, 0x4e, 0x3c, 0xad, 0xd6, 0x47, 0x35, 0xa4, 0xd1, 0x40, 0x32, 0xa3],
    [0xc4, 0x55, 0x27, 0xb6, 0xc3, 0x52, 0x20, 0xb1, 0xca, 0x5b, 0x29, 0xb8, 0xcd, 0x5c, 0x2e, 0xbf],
    [0x90, 0x01, 0x73, 0xe2, 0x97, 0x06, 0x74, 0xe5, 0x9e, 0x0f, 0x7d, 0xec, 0x99, 0x08, 0x7a, 0xeb],
    [0x8c, 0x1d, 0x6f, 0xfe, 0x8b, 0x1a, 0x68, 0xf9, 0x82, 0x13, 0x61, 0xf0, 0x85, 0x14, 0x66, 0xf7],
    [0xa8, 0x39, 0x4b, 0xda, 0xaf, 0x3e, 0x4c, 0xdd, 0xa6, 0x37, 0x45, 0xd4, 0xa1, 0x30, 0x42, 0xd3],
    [0xb4, 0x25, 0x57, 0xc6, 0xb3, 0x22, 0x50, 0xc1, 0xba, 0x2b, 0x59, 0xc8, 0xbd, 0x2c, 0x5e, 0xcf]
  ]

  function Flatten(rows: seq<seq<bv8>>): seq<bv8> {
    if rows == [] then [] else rows[0] + Flatten(rows[1..])
  }

  const CRC_LOOKUP_TABLE: seq<bv8> := Flatten(ROWS)

  function Shift8(reg: bv8): bv8 {
    Clock(Clock(Clock(Clock(Clock(Clock(Clock(Clock(reg))))))))
  }

  lemma ClockTwice(n: nat, reg: bv8, two: bv8)
    requires two == Clock(Clock(reg))
    ensures ClockN(n + 2, reg) == ClockN(n, two)
  {
    assert ClockN(n + 2, reg) == ClockN(n + 1, Clock(reg));
  }

  lemma ClockEight(reg: bv8)
    ensures ClockN(8, reg) == Shift8(reg)
  {
    var two := Clock(Clock(reg));
    var four := Clock(Clock(two));
    var six := Clock(Clock(four));
    ClockTwice(6, reg, two);
    ClockTwice(4, two, four);
    ClockTwice(2, four, six);
    ClockTwice(0, six, Clock(Clock(six)));
  }

  /** Row h of the table is the shifted values of 16h, ..., 16h+15. */
  lemma RowsAreShifts(h: bv8, low: bv8)
    requires h < 16 && low < 16
    ensures |ROWS| == 16 && |ROWS[h as int]| == 16
    ensures ROWS[h as int][low as int] == Shift8((h << 4) | low)
  {
    if h < 4 {
    } else if h < 8 {
    } else if h < 12 {
    } else {
    }
  }

  lemma Nibbles(x: bv8)
    ensures (x as int) / 16 == (x >> 4) as int && (x as int) % 16 == (x & 0xF) as int
    ensures ((x >> 4) << 4) | (x & 0xF) == x
  {
  }

  lemma {:induction false} FlattenIndex(rows: seq<seq<bv8>>, i: nat)
    requires forall k :: 0 <= k < |rows| ==> |rows[k]| == 16
    ensures |Flatten(rows)| == 16 * |rows|
    ensures i < 16 * |rows| ==> Flatten(rows)[i] == rows[i / 16][i % 16]
  {
    if rows != [] {
      FlattenIndex(rows[1..], if i < 16 then 0 else i - 16);
      if 16 <= i < 16 * |rows| {
        assert rows[i / 16] == rows[1..][(i - 16) / 16];
      }
    }
  }

  lemma RowLengths()
    ensures |ROWS| == 16 && forall k :: 0 <= k < 16 ==> |ROWS[k]| == 16
  {
  }

  /** Every table entry is its index clocked through the register eight times. */
  lemma TableEntry(x: bv8)
    ensures |CRC_LOOKUP_TABLE| == 256
    ensures CRC_LOOKUP_TABLE[x as int] == Shift8(x)
  {
    RowLengths();
    FlattenIndex(ROWS, x as int);
    Nibbles(x);
    RowsAreShifts(x >> 4, x & 0xF);
  }

  /** The low n bits of a register value, least significant first. */
  function RegisterBits(x: bv8, n: nat): (s: seq<bool>)
    ensures |s| == n
    decreases n
  {
    if n == 0 then [] else [x & 1 != 0] + RegisterBits(x >> 1, n - 1)
  }

  lemma {:induction false} BitsOfByte(b: byte, n: nat)
    ensures LowBits(b, n) == RegisterBits(b as bv8, n)
    decreases n
  {
    if n != 0 {
      LowBitOfByte(b);
      HalfOfByte(b);
      BitsOfByte(b / 2, n - 1);
    }
  }

  /** While bits are shifted in, the register differs from the pre-XORed one by the bits still to come. */
  lemma ShiftInBit(reg: bv8, x: bv8, ahead: bv8) returns (y: bv8, next: bv8, after: bv8)
    requires reg ^ x == ahead
    ensures y == x >> 1 && next == SerialBit(reg, x & 1 != 0) && after == Clock(ahead)
    ensures next ^ y == after
  {
    y, next, after := x >> 1, SerialBit(reg, x & 1 != 0), Clock(ahead);
  }

  function Drop(x: bv8, n: nat): bv8
    decreases n
  {
    if n == 0 then x else Drop(x >> 1, n - 1)
  }

  lemma UnfoldStep(x: bv8, n: nat, reg: bv8, ahead: bv8, y: bv8, next: bv8, after: bv8)
    requires n != 0
    requires y == x >> 1 && next == SerialBit(reg, x & 1 != 0) && after == Clock(ahead)
    ensures Serial(RegisterBits(x, n), reg) == Serial(RegisterBits(y, n - 1), next)
    ensures Drop(x, n) == Drop(y, n - 1)
    ensures ClockN(n, ahead) == ClockN(n - 1, after)
  {
    SerialCons(x & 1 != 0, RegisterBits(y, n - 1), reg);
  }

  lemma {:induction false} ShiftInBits(x: bv8, n: nat, reg: bv8, ahead: bv8)
    requires reg ^ x == ahead
    ensures Serial(RegisterBits(x, n), reg) ^ Drop(x, n) == ClockN(n, ahead)
    decreases n
  {
    if n != 0 {
      var y, next, after := ShiftInBit(reg, x, ahead);
      UnfoldStep(x, n, reg, ahead, y, next, after);
      ShiftInBits(y, n - 1, next, after);
    }
  }

  lemma SerialCons(bit: bool, rest: seq<bool>, reg: bv8)
    ensures Serial([bit] + rest, reg) == Serial(rest, SerialBit(reg, bit))
  {
    assert ([bit] + rest)[1..] == rest;
  }

  lemma DropAll(x: bv8)
    ensures Drop(x, 8) == 0
  {
    var y := x >> 1 >> 1 >> 1 >> 1;
    assert Drop(x, 8) == Drop(x >> 1, 7) == Drop(x >> 1 >> 1, 6);
    assert Drop(x >> 1 >> 1, 6) == Drop(x >> 1 >> 1 >> 1, 5) == Drop(y, 4);
    assert Drop(y, 4) == Drop(y >> 1, 3) == Drop(y >> 1 >> 1, 2);
  }

  /** Feeding eight bits one by one is one table step: XOR them in, then clock eight times. */
  lemma ByteStep(x: bv8, reg: bv8)
    ensures Serial(RegisterBits(x, 8), reg) == Shift8(reg ^ x)
  {
    ShiftInBits(x, 8, reg, reg ^ x);
    DropAll(x);
    ClockEight(reg ^ x);
  }

  lemma RegisterAppend(msg: seq<byte>, b: byte, seed: byte)
    ensures Register(msg + [b], seed) == Shift8(Register(msg, seed) ^ (b as bv8))
  {
    BitsOfConcat(msg, [b]);
    assert BitsOf([b]) == Bits(b);
    SerialConcat(BitsOf(msg), Bits(b), seed as bv8);
    BitsOfByte(b, 8);
    ByteStep(b as bv8, Register(msg, seed));
  }

  method Lookup(index: bv8) returns (entry: bv8)
    ensures entry == Shift8(index)
  {
    TableEntry(index);
    entry := CRC_LOOKUP_TABLE[index as int];
  }

  /** The table loop of calcCRC computes the bit-serial CRC. */
  method CalcCrc(data: seq<byte>, seed: byte) returns (crc: byte)
    ensures crc == CrcFrom(data, seed)
  {
    var reg := seed as bv8;
    var i := 0;
    while i < |data|
      invariant 0 <= i <= |data|
      invariant reg == Register(data[..i], seed)
    {
      RegisterAppend(data[..i], data[i], seed);
      assert data[..i + 1] == data[..i] + [data[i]];
      reg := Lookup(reg ^ (data[i] as bv8));
      i := i + 1;
    }
    assert data[..i] == data;
    CrcIsRegister(data, seed);
    crc := reg as int;
  }

  // ---------- residue ----------

  /** Appending a byte leaves residue zero exactly when the byte is the CRC. */
  lemma Residue(msg: seq<byte>, b: byte, seed: byte)
    ensures CrcFrom(msg + [b], seed) == 0 <==> b == CrcFrom(msg, seed)
  {
    RegisterAppend(msg, b, seed);
    CrcIsRegister(msg + [b], seed);
    CrcIsRegister(msg, seed);
    ResidueOfRegister(Register(msg, seed), b, Register(msg + [b], seed));
  }

  /** The CRC starts from zero: that of any number of zeros is zero, and that of one byte is its table entry. */
  lemma {:induction false} CrcOfZeros(msg: seq<byte>)
    requires forall i :: 0 <= i < |msg| ==> msg[i] == 0
    ensures Crc(msg) == 0
    decreases |msg|
  {
    if msg != [] {
      var front := msg[..|msg| - 1];
      assert msg == front + [0];
      CrcOfZeros(front);
      Residue(front, 0, 0);
    }
  }

  lemma CrcOfByte(b: byte)
    ensures |CRC_LOOKUP_TABLE| == 256
    ensures Crc([b]) as bv8 == CRC_LOOKUP_TABLE[b]
  {
    RegisterOfByte(b);
    TableEntry(b as bv8);
    RegisterAppend([], b, 0);
    assert [] + [b] == [b];
    CrcIsRegister([b], 0);
    assert 0 ^ (b as bv8) == b as bv8;
  }

  lemma ResidueOfRegister(reg: bv8, b: byte, next: bv8)
    requires next == Shift8(reg ^ (b as bv8))
    ensures next as int == 0 <==> b == reg as int
  {
    Shift8Zero(reg ^ (b as bv8));
    XorZero(reg, b as bv8);
    SameByte(reg, b);
    ZeroByte(next);
  }

  lemma SameByte(reg: bv8, b: byte)
    ensures b == reg as int <==> reg == b as bv8
  {
    RegisterOfByte(b);
    ByteOfRegister(reg);
  }

  lemma ZeroByte(reg: bv8)
    ensures reg as int == 0 <==> reg == 0
  {
    ByteOfRegister(reg);
  }

  lemma Shift8Zero(x: bv8)
    ensures Shift8(x) == 0 <==> x == 0
  {
  }

  lemma XorZero(x: bv8, y: bv8)
    ensures x ^ y == 0 <==> x == y
  {
  }
}
