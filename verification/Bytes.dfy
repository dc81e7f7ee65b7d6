/** Bytes, the fixed-width unsigned integers of the wire format, and their big-endian encodings.
    A byte is an integer in [0,256); bit-level reasoning is confined to the Crc module. */
module Bytes {
  type byte = n: int | 0 <= n < 256
  type uint16 = n: int | 0 <= n < 0x1_0000
  type uint24 = n: int | 0 <= n < 0x100_0000
  type uint32 = n: int | 0 <= n < 0x1_0000_0000
  type uint64 = n: int | 0 <= n < 0x1_0000_0000_0000_0000

  /** The outcome of an operation that the source returns as `std::expected`. */
  datatype Result<+T, +E> = Ok(value: T) | Err(error: E)

  datatype Option<+T> = None | Some(value: T)

  /** A slice of a slice is a slice. */
  lemma SubSlice(s: seq<byte>, from: nat, to: nat, i: nat, j: nat)
    requires from <= to <= |s| && i <= j <= to - from
    ensures s[from..to][i..j] == s[from + i..from + j]
  {
    var t := s[from..to];
    assert forall k :: 0 <= k < j - i ==> t[i..j][k] == t[i + k] == s[from + i + k] == s[from + i..from + j][k];
  }

  lemma Assoc<T>(a: seq<T>, b: seq<T>, c: seq<T>)
    ensures (a + b) + c == a + (b + c)
  {
  }

  /** `n & 0xFF` on natural numbers. */
  function LowByte(n: nat): byte {
    n % 256
  }

  // Big-endian fields. Each takes the top byte by a shift and keeps the bits below it for the rest, so a number
  // too large for the field loses its high bits, as with `(n >> 16) & 0xFF` and so on in the source.

  function Be16(n: nat): (s: seq<byte>)
    ensures |s| == 2
  {
    [LowByte(n / 0x100), LowByte(n)]
  }

  function Be24(n: nat): (s: seq<byte>)
    ensures |s| == 3
  {
    [LowByte(n / 0x1_0000)] + Be16(n % 0x1_0000)
  }

  function Be32(n: nat): (s: seq<byte>)
    ensures |s| == 4
  {
    [LowByte(n / 0x100_0000)] + Be24(n % 0x100_0000)
  }

  function Be64(n: nat): (s: seq<byte>)
    ensures |s| == 8
  {
    Be32(n / 0x1_0000_0000) + Be32(n % 0x1_0000_0000)
  }

  function FromBe16(s: seq<byte>): uint16
    requires |s| == 2
  {
    (s[0] as int) * 0x100 + s[1]
  }

  function FromBe24(s: seq<byte>): uint24
    requires |s| == 3
  {
    (s[0] as int) * 0x1_0000 + FromBe16(s[1..])
  }

  function FromBe32(s: seq<byte>): uint32
    requires |s| == 4
  {
    (s[0] as int) * 0x100_0000 + FromBe24(s[1..])
  }

  function FromBe64(s: seq<byte>): uint64
    requires |s| == 8
  {
    (FromBe32(s[..4]) as int) * 0x1_0000_0000 + FromBe32(s[4..])
  }

  // Decoding inverts encoding on the numbers that fit.

  lemma FromBe16Be16(n: uint16)
    ensures FromBe16(Be16(n)) == n
  {
  }

  lemma FromBe24Be24(n: uint24)
    ensures FromBe24(Be24(n)) == n
  {
    assert Be24(n)[1..] == Be16(n % 0x1_0000);
    FromBe16Be16(n % 0x1_0000);
  }

  lemma FromBe32Be32(n: uint32)
    ensures FromBe32(Be32(n)) == n
  {
    assert Be32(n)[1..] == Be24(n % 0x100_0000);
    FromBe24Be24(n % 0x100_0000);
  }

  lemma FromBe64Be64(n: uint64)
    ensures FromBe64(Be64(n)) == n
  {
    assert Be64(n)[..4] == Be32(n / 0x1_0000_0000);
    assert Be64(n)[4..] == Be32(n % 0x1_0000_0000);
    FromBe32Be32(n / 0x1_0000_0000);
    FromBe32Be32(n % 0x1_0000_0000);
  }

  // Encoding a decoded field gives its bytes back.

  lemma Be16FromBe16(s: seq<byte>)
    requires |s| == 2
    ensures Be16(FromBe16(s)) == s
  {
  }

  lemma Be24FromBe24(s: seq<byte>)
    requires |s| == 3
    ensures Be24(FromBe24(s)) == s
  {
    var low := s[1..];
    var n := FromBe24(s);
    assert n / 0x1_0000 == s[0] && n % 0x1_0000 == FromBe16(low);
    Be16FromBe16(low);
    assert s == [s[0]] + low;
  }

  lemma Be32FromBe32(s: seq<byte>)
    requires |s| == 4
    ensures Be32(FromBe32(s)) == s
  {
    var low := s[1..];
    var n := FromBe32(s);
    assert n / 0x100_0000 == s[0] && n % 0x100_0000 == FromBe24(low);
    Be24FromBe24(low);
    assert s == [s[0]] + low;
  }
}
