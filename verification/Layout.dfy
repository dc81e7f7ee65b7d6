/** Where every byte of a built packet stands, in numbers. */
module Layout {
  import opened Bytes
  import opened RmapCrc
  import opened Packets

  /** Sixteen, twenty-four and thirty-two bits at position i, most significant byte first. */
  predicate Has16(s: seq<byte>, i: nat, n: nat)
    requires i + 2 <= |s|
  {
    s[i] == n / 0x100 % 256 && s[i + 1] == n % 256
  }

  predicate Has24(s: seq<byte>, i: nat, n: nat)
    requires i + 3 <= |s|
  {
    s[i] == n / 0x1_0000 % 256 && s[i + 1] == n / 0x100 % 256 && s[i + 2] == n % 256
  }

  predicate Has32(s: seq<byte>, i: nat, n: nat)
    requires i + 4 <= |s|
  {
    s[i] == n / 0x100_0000 % 256 && Has24(s, i + 1, n)
  }

  function Bit(on: bool, weight: nat): nat {
    if on then weight else 0
  }

  /** The instruction byte: 0x40 command, 0x20 write, 0x10 verify, 0x08 reply, 0x04 increment, and the number of
      reply-address words. */
  function InstructionByte(c: Config): nat {
    match c
    case Read(_, _, _, _, _, _, _, _, _, _) => 0x48 + Bit(c.increment, 4) + (|c.replyAddress| + 3) / 4
    case Write(_, _, _, _, _, _, _, _, _, _, _, _) =>
      0x60 + Bit(c.verify, 16) + Bit(c.reply, 8) + Bit(c.increment, 4) + (|c.replyAddress| + 3) / 4
    case ReadReply(_, _, _, _, _, _, _) => 0x08 + Bit(c.increment, 4)
    case WriteReply(_, _, _, _, _, _, _) => 0x28 + Bit(c.verify, 16) + Bit(c.increment, 4)
  }

  // ---------- headers ----------

  /** Taking the low bits first does not change the bits above them. */
  lemma Shift(n: nat)
    ensures n % 0x1_0000 / 0x100 % 256 == n / 0x100 % 256 && n % 0x1_0000 % 256 == n % 256
    ensures n % 0x100_0000 / 0x1_0000 % 256 == n / 0x1_0000 % 256 && n % 0x100_0000 % 0x1_0000 == n % 0x1_0000
  {
    var q, r := n / 0x1_0000, n % 0x1_0000;
    assert n / 0x100 == q * 256 + r / 0x100;
    var t, u := n / 0x100_0000, n % 0x100_0000;
    assert n / 0x1_0000 == t * 256 + u / 0x1_0000;
  }

  lemma FieldsAt(n: nat)
    ensures Has16(Be16(n), 0, n) && Has24(Be24(n), 0, n) && Has32(Be32(n), 0, n)
  {
    Shift(n);
    var low, m := n % 0x1_0000, n % 0x100_0000;
    assert Be24(n) == [LowByte(n / 0x1_0000), LowByte(low / 0x100), LowByte(low)];
    assert Be24(m) == [LowByte(m / 0x1_0000), LowByte(low / 0x100), LowByte(low)];
    assert Be32(n) == [LowByte(n / 0x100_0000), LowByte(m / 0x1_0000), LowByte(low / 0x100), LowByte(low)];
  }

  /** The last eleven bytes of a command header. */
  predicate TailAt(s: seq<byte>, i: nat, initiator: byte, tid: uint16, ext: byte, address: uint32, length: nat)
    requires i + 11 <= |s|
  {
    && s[i] == initiator && Has16(s, i + 1, tid) && s[i + 3] == ext && Has32(s, i + 4, address)
    && Has24(s, i + 8, length)
  }

  lemma TailBytes(initiator: byte, tid: uint16, ext: byte, address: uint32, length: nat)
    ensures TailAt(CommandTail(initiator, tid, ext, address, length), 0, initiator, tid, ext, address, length)
  {
    FieldsAt(tid);
    FieldsAt(address);
    FieldsAt(length);
    var t := CommandTail(initiator, tid, ext, address, length);
    assert t[1] == Be16(tid)[0] && t[2] == Be16(tid)[1];
    assert t[4] == Be32(address)[0] && t[5] == Be32(address)[1] && t[6] == Be32(address)[2] && t[7] == Be32(address)[3];
    assert t[8] == Be24(length)[0] && t[9] == Be24(length)[1] && t[10] == Be24(length)[2];
  }

  /** A command header: fixed bytes, the reply address at the end of whole words, the fixed end. */
  predicate CommandAt(s: seq<byte>, i: nat, c: Config)
    requires c.Read? || c.Write?
  {
    var n := |c.replyAddress|;
    var words := (n + 3) / 4 * 4;
    && i + 15 + words <= |s|
    && s[i] == c.targetLogical && s[i + 1] == 0x01 && s[i + 2] == InstructionByte(c) && s[i + 3] == c.key
    && (forall j :: i + 4 <= j < i + 4 + words - n ==> s[j] == 0)
    && s[i + 4 + words - n..i + 4 + words] == c.replyAddress
    && TailAt(s, i + 4 + words, c.initiatorLogical, c.transactionId, c.extendedAddress, c.address,
              if c.Read? then c.dataLength else |c.data|)
  }

  /** A reply header: twelve bytes less the CRC for a read, eight less the CRC for a write. */
  predicate ReplyAt(s: seq<byte>, i: nat, c: Config)
    requires c.ReadReply? || c.WriteReply?
  {
    && i + (if c.ReadReply? then 11 else 7) <= |s|
    && s[i] == c.initiatorLogical && s[i + 1] == 0x01 && s[i + 2] == InstructionByte(c) && s[i + 3] == c.status
    && s[i + 4] == c.targetLogical && Has16(s, i + 5, c.transactionId)
    && (c.ReadReply? ==> s[i + 7] == 0 && Has24(s, i + 8, |c.data|))
  }

  lemma CommandHeader(c: Config)
    requires Buildable(c) && (c.Read? || c.Write?)
    ensures |Header(c)| == 15 + PaddedSize(|c.replyAddress|) && CommandAt(Header(c), 0, c)
  {
    var length := if c.Read? then c.dataLength else |c.data|;
    var first: seq<byte> := [c.targetLogical, PROTOCOL_ID, Instruction(c), c.key];
    var zeros := ZeroBytes(PaddedSize(|c.replyAddress|) - |c.replyAddress|);
    var tail := CommandTail(c.initiatorLogical, c.transactionId, c.extendedAddress, c.address, length);
    TailBytes(c.initiatorLogical, c.transactionId, c.extendedAddress, c.address, length);
    assert Header(c) == first + (zeros + c.replyAddress) + tail;
    Moved(first + (zeros + c.replyAddress), tail, c, length);
    Middle(first, zeros, c.replyAddress, tail);
  }

  lemma Middle(a: seq<byte>, z: seq<byte>, r: seq<byte>, t: seq<byte>)
    ensures
      var s := a + (z + r) + t;
      && (forall j :: 0 <= j < |a| ==> s[j] == a[j])
      && (forall j :: |a| <= j < |a| + |z| ==> s[j] == z[j - |a|])
      && s[|a| + |z|..|a| + |z| + |r|] == r
  {
  }

  lemma Moved(front: seq<byte>, tail: seq<byte>, c: Config, length: nat)
    requires c.Read? || c.Write?
    requires |tail| == 11
    requires TailAt(tail, 0, c.initiatorLogical, c.transactionId, c.extendedAddress, c.address, length)
    ensures
      TailAt(front + tail, |front|, c.initiatorLogical, c.transactionId, c.extendedAddress, c.address, length)
  {
    assert forall j :: 0 <= j < 11 ==> (front + tail)[|front| + j] == tail[j];
  }

  lemma ReplyHeader(c: Config)
    requires c.ReadReply? || c.WriteReply?
    ensures |Header(c)| == (if c.ReadReply? then 11 else 7) && ReplyAt(Header(c), 0, c)
  {
    FieldsAt(c.transactionId);
    var h := Header(c);
    assert h[5] == Be16(c.transactionId)[0] && h[6] == Be16(c.transactionId)[1];
    if c.ReadReply? {
      FieldsAt(|c.data|);
      var b := Be24(|c.data|);
      assert h[8] == b[0] && h[9] == b[1] && h[10] == b[2];
    }
  }

  // ---------- whole packets ----------

  /** Bytes lo to hi, followed by their CRC. */
  predicate SealedAt(s: seq<byte>, lo: nat, hi: nat) {
    lo <= hi < |s| && s[hi] == Crc(s[lo..hi])
  }

  predicate HeaderAt(s: seq<byte>, i: nat, c: Config) {
    if c.Read? || c.Write? then CommandAt(s, i, c) else ReplyAt(s, i, c)
  }

  /** The path in front, the header with its CRC, the data with its CRC for the kinds that carry data. */
  predicate PacketAt(s: seq<byte>, c: Config) {
    var path := if c.Read? || c.Write? then c.targetPath else c.replyAddress;
    var p := |path|;
    var n := if c.Read? || c.Write? then 15 + (|c.replyAddress| + 3) / 4 * 4 else if c.ReadReply? then 11 else 7;
    && path <= s && HeaderAt(s, p, c) && SealedAt(s, p, p + n)
    && if c.Write? || c.ReadReply?
       then |s| == p + n + |c.data| + 2 && s[p + n + 1..|s| - 1] == c.data && SealedAt(s, p + n + 1, |s| - 1)
       else |s| == p + n + 1
  }

  lemma Shifted(path: seq<byte>, h: seq<byte>, rest: seq<byte>, c: Config)
    requires HeaderAt(h, 0, c)
    ensures HeaderAt(path + h + rest, |path|, c)
  {
    var s := path + h + rest;
    assert forall j :: 0 <= j < |h| ==> s[|path| + j] == h[j];
    if c.Read? || c.Write? {
      var n := |c.replyAddress|;
      var words := (n + 3) / 4 * 4;
      forall j | |path| + 4 <= j < |path| + 4 + words - n
        ensures s[j] == 0
      {
        assert s[j] == h[j - |path|];
      }
      assert s[|path| + 4 + words - n..|path| + 4 + words] == h[4 + words - n..4 + words];
    }
  }

  /** A path, a sealed header, and either nothing or sealed data. */
  lemma Sealed(path: seq<byte>, h: seq<byte>, body: seq<byte>)
    ensures
      var s := path + Seal(h) + body;
      s == path + h + ([Crc(h)] + body) && path <= s && SealedAt(s, |path|, |path| + |h|)
      && |s| == |path| + |h| + 1 + |body|
  {
    var crc := Crc(h);
    var s := path + (h + [crc]) + body;
    assert s[|path|..|path| + |h|] == h && s[|path| + |h|] == crc;
    assert s == path + h + ([crc] + body);
  }

  lemma SealedData(front: seq<byte>, data: seq<byte>)
    ensures
      var s := front + Seal(data);
      |s| == |front| + |data| + 1 && s[|front|..|s| - 1] == data && SealedAt(s, |front|, |s| - 1)
  {
    var crc := Crc(data);
    var s := front + (data + [crc]);
    assert s[|front|..|s| - 1] == data && s[|s| - 1] == crc;
  }

  lemma Assembled(c: Config, path: seq<byte>, h: seq<byte>, body: seq<byte>, s: seq<byte>)
    requires HeaderAt(h, 0, c) && s == path + Seal(h) + body
    requires path == if c.Read? || c.Write? then c.targetPath else c.replyAddress
    requires |h| == if c.Read? || c.Write? then 15 + (|c.replyAddress| + 3) / 4 * 4 else if c.ReadReply? then 11 else 7
    requires body == if c.Write? || c.ReadReply? then Seal(c.data) else []
    ensures PacketAt(s, c)
  {
    Sealed(path, h, body);
    Shifted(path, h, [Crc(h)] + body, c);
    if c.Write? || c.ReadReply? {
      SealedData(path + Seal(h), c.data);
    }
  }

  /** What is built for any configuration, byte for byte. */
  lemma PacketBytes(c: Config)
    requires Buildable(c)
    ensures PacketAt(Encode(c), c)
  {
    if c.Read? || c.Write? {
      CommandHeader(c);
    } else {
      ReplyHeader(c);
    }
    var s := Encode(c);
    Assembled(c, Path(c), Header(c), Body(c), s);
  }
}
