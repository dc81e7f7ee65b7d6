/** What the RMAP CRC detects, for messages of any length: every odd number of flipped bits, every burst
    within eight consecutive bits, and every pair of flipped bits whose distance is not a multiple of 127. */
module CrcErrorDetection {
  import opened Bytes
  import opened RmapCrc

  function XorBits(a: seq<bool>, b: seq<bool>): (s: seq<bool>)
    requires |a| == |b|
    ensures |s| == |a|
    ensures forall i :: 0 <= i < |s| ==> s[i] == (a[i] != b[i])
  {
    seq(|a|, i requires 0 <= i < |a| => a[i] != b[i])
  }

  function Weight(bits: seq<bool>): nat {
    if bits == [] then 0 else (if bits[0] then 1 else 0) + Weight(bits[1..])
  }

  /** The bit positions, counted least significant first through the message, where p and q differ. */
  function Flips(p: seq<byte>, q: seq<byte>): (s: seq<bool>)
    requires |p| == |q|
    ensures |s| == 8 * |p|
  {
    XorBits(BitsOf(p), BitsOf(q))
  }

  lemma ClockLinear(x: bv8, y: bv8)
    ensures Clock(x ^ y) == Clock(x) ^ Clock(y)
  {
  }

  lemma FeedLinear(x: bv8, y: bv8, a: bool, b: bool)
    ensures (x ^ y) ^ (if a != b then 1 else 0) == (x ^ (if a then 1 else 0)) ^ (y ^ (if b then 1 else 0))
  {
  }

  lemma SerialBitLinear(x: bv8, y: bv8, a: bool, b: bool) returns (x': bv8, y': bv8)
    ensures x' == SerialBit(x, a) && y' == SerialBit(y, b)
    ensures SerialBit(x ^ y, a != b) == x' ^ y'
  {
    x', y' := SerialBit(x, a), SerialBit(y, b);
    FeedLinear(x, y, a, b);
    ClockLinear(x ^ (if a then 1 else 0), y ^ (if b then 1 else 0));
  }

  /** The register is XOR-linear in the message and in the seed. */
  lemma {:induction false} SerialLinear(a: seq<bool>, b: seq<bool>, x: bv8, y: bv8)
    requires |a| == |b|
    ensures Serial(XorBits(a, b), x ^ y) == Serial(a, x) ^ Serial(b, y)
  {
    if a != [] {
      var x', y' := SerialBitLinear(x, y, a[0], b[0]);
      var rest := XorBits(a[1..], b[1..]);
      assert XorBits(a, b) == [a[0] != b[0]] + rest;
      SerialCons(a[0] != b[0], rest, x ^ y);
      SerialLinear(a[1..], b[1..], x', y');
    }
  }

  /** Two messages of one length share their CRC exactly when their difference has syndrome zero. */
  lemma Syndrome(p: seq<byte>, q: seq<byte>, seed: byte)
    requires |p| == |q|
    ensures CrcFrom(p, seed) == CrcFrom(q, seed) <==> Serial(Flips(p, q), 0) == 0
  {
    var s := seed as bv8;
    SerialLinear(BitsOf(p), BitsOf(q), s, s);
    assert s ^ s == 0;
    XorZero(Register(p, seed), Register(q, seed));
    CrcIsRegister(p, seed);
    CrcIsRegister(q, seed);
  }

  // Odd numbers of flips: the register keeps the parity of what it was fed.

  predicate Parity(x: bv8) {
    (x ^ (x >> 1) ^ (x >> 2) ^ (x >> 3) ^ (x >> 4) ^ (x >> 5) ^ (x >> 6) ^ (x >> 7)) & 1 == 1
  }

  lemma SerialBitParity(x: bv8, bit: bool)
    ensures Parity(SerialBit(x, bit)) == (Parity(x) != bit)
  {
  }

  lemma {:induction false} SerialParity(bits: seq<bool>, x: bv8)
    ensures Parity(Serial(bits, x)) == (Parity(x) != (Weight(bits) % 2 == 1))
  {
    if bits != [] {
      SerialBitParity(x, bits[0]);
      SerialParity(bits[1..], SerialBit(x, bits[0]));
    }
  }

  /** Flipping any odd number of bits, of a message of any length, changes the CRC. */
  lemma OddFlipsChangeCrc(p: seq<byte>, q: seq<byte>, seed: byte)
    requires |p| == |q|
    requires Weight(Flips(p, q)) % 2 == 1
    ensures CrcFrom(p, seed) != CrcFrom(q, seed)
  {
    SerialParity(Flips(p, q), 0);
    Syndrome(p, q, seed);
  }

  // Bursts: a run of zeros neither creates nor destroys a syndrome.

  function Zeros(n: nat): (s: seq<bool>)
    ensures |s| == n
    ensures forall i :: 0 <= i < n ==> !s[i]
  {
    seq(n, i => false)
  }

  lemma {:induction false} SerialZeros(n: nat, x: bv8)
    ensures Serial(Zeros(n), x) == ClockN(n, x)
  {
    if n != 0 {
      assert Zeros(n)[1..] == Zeros(n - 1);
      assert SerialBit(x, false) == Clock(x) by { assert x ^ 0 == x; }
      SerialZeros(n - 1, Clock(x));
    }
  }

  lemma ClockZero(x: bv8)
    ensures Clock(x) == 0 <==> x == 0
  {
  }

  lemma {:induction false} ClockNZero(n: nat, x: bv8)
    ensures ClockN(n, x) == 0 <==> x == 0
  {
    if n != 0 {
      ClockZero(x);
      ClockNZero(n - 1, Clock(x));
    }
  }

  /** Surrounding a bit string with zeros does not change whether its syndrome is zero. */
  lemma PaddedSyndrome(before: nat, core: seq<bool>, after: nat)
    ensures Serial(Zeros(before) + core + Zeros(after), 0) == ClockN(after, Serial(core, 0))
    ensures Serial(Zeros(before) + core + Zeros(after), 0) == 0 <==> Serial(core, 0) == 0
  {
    SerialConcat(Zeros(before) + core, Zeros(after), 0);
    SerialConcat(Zeros(before), core, 0);
    SerialZeros(before, 0);
    ClockNZero(before, 0);
    SerialZeros(after, Serial(core, 0));
    ClockNZero(after, Serial(core, 0));
  }

  function Bit(b: bool): bv8 {
    if b then 1 else 0
  }

  /** A clock that leaves the top bit clear had no feedback, so it can be undone. */
  lemma ClockBack(reg: bv8, bit: bool, next: bv8)
    requires SerialBit(reg, bit) == next && next & 0x80 == 0
    ensures reg == (next << 1) | Bit(bit)
  {
  }

  /** Eight bits fed into an empty register leave it empty only if they are all zero. */
  lemma WindowSyndrome(w: seq<bool>)
    requires |w| == 8
    requires Serial(w, 0) == 0
    ensures forall i :: 0 <= i < 8 ==> !w[i]
  {
    var head, tail := w[..4], w[4..];
    assert w == head + tail;
    SerialConcat(head, tail, 0);
    var mid := Serial(head, 0);
    var low := FourBack(tail, mid, 0);
    var zero := FourBack(head, 0, mid);
  }

  lemma FourBack(w: seq<bool>, reg: bv8, next: bv8) returns (r: bv8)
    requires |w| == 4
    requires Serial(w, reg) == next && next & 0xF0 == 0
    ensures r == (((((((next << 1) | Bit(w[3])) << 1) | Bit(w[2])) << 1) | Bit(w[1])) << 1) | Bit(w[0])
    ensures reg == r
  {
    var r1 := SerialBit(reg, w[0]);
    var r2 := SerialBit(r1, w[1]);
    var r3 := SerialBit(r2, w[2]);
    assert Serial(w, reg) == Serial(w[1..], r1) == Serial(w[1..][1..], r2) == Serial(w[1..][1..][1..], r3);
    assert w[1..][1..][1..] == [w[3]] + [];
    SerialCons(w[3], [], r3);
    ClockBack(r3, w[3], next);
    ClockBack(r2, w[2], r3);
    ClockBack(r1, w[1], r2);
    ClockBack(reg, w[0], r1);
    r := reg;
  }

  lemma WindowSplit(e: seq<bool>, start: nat) returns (w: seq<bool>)
    requires start + 8 <= |e|
    requires forall i :: 0 <= i < |e| && e[i] ==> start <= i < start + 8
    ensures w == e[start..start + 8] && e == Zeros(start) + w + Zeros(|e| - start - 8)
  {
    w := e[start..start + 8];
  }

  /** Any non-zero pattern of flips within 8 consecutive bits, even across a byte boundary, of a message of
      any length changes the CRC. */
  lemma BurstChangesCrc(p: seq<byte>, q: seq<byte>, seed: byte, start: nat)
    requires |p| == |q| && p != q
    requires start + 8 <= 8 * |p|
    requires forall i :: 0 <= i < 8 * |p| && Flips(p, q)[i] ==> start <= i < start + 8
    ensures CrcFrom(p, seed) != CrcFrom(q, seed)
  {
    var e := Flips(p, q);
    var w := WindowSplit(e, start);
    PaddedSyndrome(start, w, |e| - start - 8);
    Syndrome(p, q, seed);
    if CrcFrom(p, seed) == CrcFrom(q, seed) {
      WindowSyndrome(w);
      NoFlips(p, q);
    }
  }

  lemma NoFlips(p: seq<byte>, q: seq<byte>)
    requires |p| == |q|
    requires forall i :: 0 <= i < 8 * |p| ==> !Flips(p, q)[i]
    ensures p == q
  {
    assert BitsOf(p) == BitsOf(q) by {
      forall i | 0 <= i < 8 * |p|
        ensures BitsOf(p)[i] == BitsOf(q)[i]
      {
        assert !Flips(p, q)[i];
      }
    }
    BitsOfInjective(p, q);
  }

  lemma {:induction false} BitsOfInjective(p: seq<byte>, q: seq<byte>)
    requires |p| == |q| && BitsOf(p) == BitsOf(q)
    ensures p == q
  {
    if p != [] {
      assert BitsOf(p)[..8] == Bits(p[0]) && BitsOf(q)[..8] == Bits(q[0]);
      assert BitsOf(p)[8..] == BitsOf(p[1..]) && BitsOf(q)[8..] == BitsOf(q[1..]);
      BitsInjective(p[0], q[0]);
      BitsOfInjective(p[1..], q[1..]);
      assert p == [p[0]] + p[1..] && q == [q[0]] + q[1..];
    }
  }

  lemma BitsInjective(a: byte, b: byte)
    requires Bits(a) == Bits(b)
    ensures a == b
  {
    BitsOfByte(a, 8);
    BitsOfByte(b, 8);
    ByteStep(a as bv8, 0);
    ByteStep(b as bv8, 0);
    Shift8Injective(0 ^ (a as bv8), 0 ^ (b as bv8));
    RegisterOfByte(a);
    RegisterOfByte(b);
  }

  lemma Shift8Injective(x: bv8, y: bv8)
    requires Shift8(x) == Shift8(y)
    ensures x == y
  {
    ClockInjective(x, y);
  }

  lemma ClockInjective(x: bv8, y: bv8)
    ensures Clock(x) == Clock(y) ==> x == y
  {
  }

  // Two flips: the register returns to its start after 127 clocks and no fewer.

  lemma {:induction false} ClockNAdd(m: nat, n: nat, x: bv8)
    ensures ClockN(m + n, x) == ClockN(n, ClockN(m, x))
  {
    if m != 0 {
      ClockNAdd(m - 1, n, Clock(x));
    }
  }

  /** None of the next n register values, the present one included, is 1. */
  predicate AvoidsOne(n: nat, x: bv8) {
    n == 0 || (x != 1 && AvoidsOne(n - 1, Clock(x)))
  }

  /** The register values at every eighth clock of the orbit of 0xE0 = Clock(1). */
  const LAPS: seq<bv8> :=
    [0xE0, 0xA8, 0xD6, 0x68, 0x46, 0x94, 0xFB, 0xC8,
     0x9E, 0x16, 0xF8, 0xBA, 0x29, 0xA7, 0xAD, 0x40]

  lemma Lap(x: bv8)
    ensures ClockN(8, x) == Shift8(x)
    ensures AvoidsOne(8, x) <==> (
      var y := Clock(Clock(Clock(Clock(x))));
      x != 1 && Clock(x) != 1 && Clock(Clock(x)) != 1 && Clock(Clock(Clock(x))) != 1 &&
      y != 1 && Clock(y) != 1 && Clock(Clock(y)) != 1 && Clock(Clock(Clock(y))) != 1)
  {
    ClockEight(x);
    var y := Clock(Clock(Clock(Clock(x))));
    assert AvoidsOne(8, x) <==> x != 1 && Clock(x) != 1 && AvoidsOne(6, Clock(Clock(x)));
    assert AvoidsOne(6, Clock(Clock(x))) <==>
      Clock(Clock(x)) != 1 && Clock(Clock(Clock(x))) != 1 && AvoidsOne(4, y);
    assert AvoidsOne(4, y) <==> y != 1 && Clock(y) != 1 && AvoidsOne(2, Clock(Clock(y)));
    assert AvoidsOne(2, Clock(Clock(y))) <==>
      Clock(Clock(y)) != 1 && Clock(Clock(Clock(y))) != 1 && AvoidsOne(0, Clock(Clock(Clock(Clock(y)))));
  }

  lemma LapsFollow(k: nat)
    requires k < 15
    ensures |LAPS| == 16 && Shift8(LAPS[k]) == LAPS[k + 1]
    ensures AvoidsOne(8, LAPS[k])
  {
    Lap(LAPS[k]);
    if k < 4 {
    } else if k < 8 {
    } else if k < 12 {
    } else {
    }
  }

  lemma {:induction false} AvoidsOneAdd(m: nat, n: nat, x: bv8)
    requires AvoidsOne(m, x) && AvoidsOne(n, ClockN(m, x))
    ensures AvoidsOne(m + n, x)
  {
    if m != 0 {
      AvoidsOneAdd(m - 1, n, Clock(x));
    }
  }

  lemma OneMoreLap(n: nat, x: bv8, next: bv8)
    requires AvoidsOne(8, x) && ClockN(8, x) == next
    requires AvoidsOne(n, next) && ClockN(n, next) == 1
    ensures AvoidsOne(8 + n, x) && ClockN(8 + n, x) == 1
  {
    AvoidsOneAdd(8, n, x);
    ClockNAdd(8, n, x);
  }

  lemma {:induction false} LapsFrom(k: nat)
    requires k <= 15
    ensures |LAPS| == 16 && AvoidsOne(8 * (15 - k) + 6, LAPS[k]) && ClockN(8 * (15 - k) + 6, LAPS[k]) == 1
    decreases 15 - k
  {
    if k < 15 {
      LapsFollow(k);
      Lap(LAPS[k]);
      LapsFrom(k + 1);
      OneMoreLap(8 * (14 - k) + 6, LAPS[k], LAPS[k + 1]);
    } else {
      LastLap();
    }
  }

  lemma LastLap()
    ensures AvoidsOne(6, 0x40) && ClockN(6, 0x40) == 1
  {
    assert AvoidsOne(3, 0x08) && AvoidsOne(5, 0x20);
    assert ClockN(3, 0x08) == ClockN(2, 0x04) == 1;
    assert ClockN(6, 0x40) == ClockN(5, 0x20) == ClockN(4, 0x10) == ClockN(3, 0x08);
  }

  lemma Period()
    ensures ClockN(127, 1) == 1
    ensures AvoidsOne(126, Clock(1))
  {
    LapsFrom(0);
    assert ClockN(127, 1) == ClockN(126, Clock(1));
  }

  lemma {:induction false} AvoidsOneAt(n: nat, x: bv8, d: nat)
    requires AvoidsOne(n, x) && d < n
    ensures ClockN(d, x) != 1
  {
    if d != 0 {
      AvoidsOneAt(n - 1, Clock(x), d - 1);
    }
  }

  /** A single set bit comes back to itself exactly after the multiples of 127 clocks. */
  lemma {:induction false} Order(d: nat)
    ensures ClockN(d, 1) == 1 <==> d % 127 == 0
  {
    Period();
    if 127 <= d {
      ClockNAdd(127, d - 127, 1);
      Order(d - 127);
    } else if d != 0 {
      AvoidsOneAt(126, Clock(1), d - 1);
    }
  }

  /** Two flips d bits apart leave the CRC unchanged exactly when d is a multiple of 127. */
  lemma TwoFlips(p: seq<byte>, q: seq<byte>, seed: byte, i: nat, j: nat)
    requires |p| == |q|
    requires i < j < 8 * |p|
    requires forall k :: 0 <= k < 8 * |p| ==> (Flips(p, q)[k] <==> k == i || k == j)
    ensures CrcFrom(p, seed) == CrcFrom(q, seed) <==> (j - i) % 127 == 0
  {
    var e := Flips(p, q);
    var core := [true] + (Zeros(j - i - 1) + [true]);
    assert e == Zeros(i) + core + Zeros(|e| - j - 1);
    PaddedSyndrome(i, core, |e| - j - 1);
    TwoBitSyndrome(j - i);
    Syndrome(p, q, seed);
  }

  lemma TwoBitSyndrome(d: nat)
    requires 0 < d
    ensures Serial([true] + (Zeros(d - 1) + [true]), 0) == 0 <==> d % 127 == 0
  {
    assert SerialBit(0, true) == Clock(1) by { assert 0 ^ 1 == 1 as bv8; }
    SerialCons(true, Zeros(d - 1) + [true], 0);
    SerialConcat(Zeros(d - 1), [true], Clock(1));
    SerialZeros(d - 1, Clock(1));
    var back := ClockN(d, 1);
    assert ClockN(d - 1, Clock(1)) == back;
    SerialCons(true, [], back);
    assert [true] + [] == [true];
    ClockZero(back ^ 1);
    XorZero(back, 1);
    Order(d);
  }

  lemma {:induction false} OneSetBit(e: seq<bool>) returns (i: nat)
    requires Weight(e) == 1
    ensures i < |e| && forall k :: 0 <= k < |e| ==> (e[k] <==> k == i)
  {
    if e[0] {
      NoSetBit(e[1..]);
      i := 0;
      assert forall k :: 1 <= k < |e| ==> e[k] == e[1..][k - 1];
    } else {
      i := OneSetBit(e[1..]);
      i := i + 1;
      assert forall k :: 1 <= k < |e| ==> e[k] == e[1..][k - 1];
    }
  }

  lemma {:induction false} NoSetBit(e: seq<bool>)
    requires Weight(e) == 0
    ensures forall k :: 0 <= k < |e| ==> !e[k]
  {
    if e != [] {
      NoSetBit(e[1..]);
      assert forall k :: 1 <= k < |e| ==> e[k] == e[1..][k - 1];
    }
  }

  lemma {:induction false} TwoSetBits(e: seq<bool>) returns (i: nat, j: nat)
    requires Weight(e) == 2
    ensures i < j < |e| && forall k :: 0 <= k < |e| ==> (e[k] <==> k == i || k == j)
  {
    if e[0] {
      i := 0;
      j := OneSetBit(e[1..]);
      j := j + 1;
    } else {
      i, j := TwoSetBits(e[1..]);
      i, j := i + 1, j + 1;
    }
    assert forall k :: 1 <= k < |e| ==> e[k] == e[1..][k - 1];
  }

  /** In up to 15 bytes (120 bits, so no two are 127 apart) any one, two or three flips change the CRC. */
  lemma FewFlipsChangeCrc(p: seq<byte>, q: seq<byte>, seed: byte)
    requires |p| == |q| <= 15
    requires 1 <= Weight(Flips(p, q)) <= 3
    ensures CrcFrom(p, seed) != CrcFrom(q, seed)
  {
    if Weight(Flips(p, q)) == 2 {
      var i, j := TwoSetBits(Flips(p, q));
      TwoFlips(p, q, seed, i, j);
    } else {
      OddFlipsChangeCrc(p, q, seed);
    }
  }
}
