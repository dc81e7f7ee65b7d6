/** The four packet builders of packet_builder.cc, writing a caller's buffer in place from an offset. */
module PacketBuilding {
  import opened Bytes
  import opened RmapCrc
  import opened Packets
  import opened InstructionBytes

  datatype BuildError = NoBufferSpace

  /** `getTotalSize` of the four builders. */
  function TotalSize(c: Config): nat {
    match c
    case Read(_, _, _, _, _, _, _, _, _, _) => |c.targetPath| + 4 + (|c.replyAddress| + 3) / 4 * 4 + 12
    case Write(_, _, _, _, _, _, _, _, _, _, _, _) =>
      |c.targetPath| + 4 + (|c.replyAddress| + 3) / 4 * 4 + 12 + |c.data| + 1
    case ReadReply(_, _, _, _, _, _, _) => |c.replyAddress| + 12 + |c.data| + 1
    case WriteReply(_, _, _, _, _, _, _) => |c.replyAddress| + 8
  }

  /** The announced size is the size of the encoding. */
  lemma TotalSizeExact(c: Config)
    requires Buildable(c)
    ensures |Encode(c)| == TotalSize(c)
  {
  }

  /** Everything outside out[lo..hi] is as it was. */
  twostate predicate Outside(out: array<byte>, lo: nat, hi: nat)
    reads out
  {
    forall k :: 0 <= k < out.Length && (k < lo || hi <= k) ==> out[k] == old(out[k])
  }

  /** `out[head++] = b` for every byte of `bytes`: what was written since `lo` grows by them, all else stays. */
  method PutAll(out: array<byte>, lo: nat, head: nat, bytes: seq<byte>) returns (next: nat)
    requires lo <= head && head + |bytes| <= out.Length
    modifies out
    ensures next == head + |bytes|
    ensures out[lo..next] == old(out[lo..head]) + bytes
    ensures Outside(out, lo, next)
  {
    next := head;
    var i := 0;
    while i < |bytes|
      invariant 0 <= i <= |bytes| && next == head + i
      invariant out[lo..next] == old(out[lo..head]) + bytes[..i]
      invariant Outside(out, lo, next)
    {
      out[next] := bytes[i];
      next := next + 1;
      i := i + 1;
      assert out[lo..next] == out[lo..next - 1] + [bytes[i - 1]];
    }
    assert bytes[..i] == bytes;
  }

  /** Appends the CRC of the header, everything written after the path. */
  method PutHeaderCrc(out: array<byte>, lo: nat, head: nat, ghost path: seq<byte>, ghost header: seq<byte>,
                      from: nat) returns (next: nat)
    requires lo <= from <= head < out.Length && from == lo + |path|
    requires out[lo..head] == path + header
    modifies out
    ensures next == head + 1
    ensures out[lo..next] == path + Seal(header)
    ensures Outside(out, lo, next)
  {
    assert out[from..head] == out[lo..head][|path|..] == header;
    var crc := CalcCrc(out[from..head], 0);
    next := PutAll(out, lo, head, [crc]);
    assert (path + header) + [crc] == path + (header + [crc]);
  }

  /** Appends the data and its CRC. */
  method PutData(out: array<byte>, lo: nat, head: nat, data: seq<byte>) returns (next: nat)
    requires lo <= head && head + |data| < out.Length
    modifies out
    ensures next == head + |data| + 1
    ensures out[lo..next] == old(out[lo..head]) + Seal(data)
    ensures Outside(out, lo, next)
  {
    next := PutAll(out, lo, head, data);
    var crc := CalcCrc(data, 0);
    next := PutAll(out, lo, next, [crc]);
    assert (old(out[lo..head]) + data) + [crc] == old(out[lo..head]) + (data + [crc]);
  }

  /** The instruction byte of a command and the padded size of its reply address. */
  method CommandInstruction(c: Config) returns (instruction: byte, size: nat)
    requires c.Read? || c.Write?
    requires Buildable(c)
    ensures instruction == Instruction(c) && size == PaddedSize(|c.replyAddress|)
  {
    var bits: bv8 := 0;
    bits := bits | 0x40;
    if c.Read? {
      bits := bits | 0x08;
    } else {
      bits := bits | 0x20;
      if c.reply {
        bits := bits | 0x08;
      }
      if c.verify {
        bits := bits | 0x10;
      }
    }
    if c.increment {
      bits := bits | 0x04;
    }
    size := |c.replyAddress|;
    if size != 0 {
      PaddingAgrees(size);
      MaskIsBits(size);
      var padded := (((size - 1) as bv8) & 0x0C) + 0x04;
      bits := bits | (padded >> 2);
      size := padded as int;
    }
    InstructionIsOr(c);
    assert bits == OrFlags(c);
    instruction := bits as int;
  }

  lemma Reassociate(x: seq<byte>, a: seq<byte>, z: seq<byte>, r: seq<byte>, t: seq<byte>)
    ensures (((x + a) + z) + r) + t == x + (a + (z + r) + t)
  {
  }

  /** The header of a command, after whatever was already written. */
  method PutCommandHeader(c: Config, out: array<byte>, lo: nat, head: nat) returns (next: nat)
    requires c.Read? || c.Write?
    requires Buildable(c) && lo <= head && head + |Header(c)| <= out.Length
    modifies out
    ensures next == head + |Header(c)|
    ensures out[lo..next] == old(out[lo..head]) + Header(c)
    ensures Outside(out, lo, next)
  {
    var instruction, size := CommandInstruction(c);
    var first := [c.targetLogical, PROTOCOL_ID, instruction, c.key];
    var zeros := ZeroBytes(size - |c.replyAddress|);
    var tail := CommandTail(c.initiatorLogical, c.transactionId, c.extendedAddress, c.address,
                            if c.Read? then c.dataLength else |c.data|);
    Reassociate(out[lo..head], first, zeros, c.replyAddress, tail);
    assert Header(c) == first + (zeros + c.replyAddress) + tail;
    next := PutAll(out, lo, head, first);
    next := PutAll(out, lo, next, zeros);
    next := PutAll(out, lo, next, c.replyAddress);
    next := PutAll(out, lo, next, tail);
  }

  /** The instruction byte of a reply. */
  method ReplyInstruction(c: Config) returns (instruction: byte)
    requires c.ReadReply? || c.WriteReply?
    ensures instruction == Instruction(c)
  {
    var bits: bv8 := 0;
    if c.WriteReply? {
      bits := bits | 0x20 | 0x08;
      if c.verify {
        bits := bits | 0x10;
      }
    } else {
      bits := bits | 0x08;
    }
    if c.increment {
      bits := bits | 0x04;
    }
    InstructionIsOr(c);
    assert bits == OrFlags(c);
    instruction := bits as int;
  }

  method PutReplyHeader(c: Config, out: array<byte>, lo: nat, head: nat) returns (next: nat)
    requires c.ReadReply? || c.WriteReply?
    requires lo <= head && head + |Header(c)| <= out.Length
    modifies out
    ensures next == head + |Header(c)|
    ensures out[lo..next] == old(out[lo..head]) + Header(c)
    ensures Outside(out, lo, next)
  {
    var instruction := ReplyInstruction(c);
    var first := [c.initiatorLogical, PROTOCOL_ID, instruction, c.status, c.targetLogical];
    var rest := Be16(c.transactionId) + if c.ReadReply? then [0] + Be24(|c.data|) else [];
    assert Header(c) == first + rest;
    assert (out[lo..head] + first) + rest == out[lo..head] + (first + rest);
    next := PutAll(out, lo, head, first);
    next := PutAll(out, lo, next, rest);
  }

  method PutHeader(c: Config, out: array<byte>, lo: nat, head: nat) returns (next: nat)
    requires Buildable(c) && lo <= head && head + |Header(c)| <= out.Length
    modifies out
    ensures next == head + |Header(c)|
    ensures out[lo..next] == old(out[lo..head]) + Header(c)
    ensures Outside(out, lo, next)
  {
    if c.Read? || c.Write? {
      next := PutCommandHeader(c, out, lo, head);
    } else {
      next := PutReplyHeader(c, out, lo, head);
    }
  }

  /** Path, header and header CRC. */
  method PutSealedHeader(c: Config, out: array<byte>, lo: nat) returns (head: nat)
    requires Buildable(c) && lo + |Path(c)| + |Header(c)| < out.Length
    modifies out
    ensures head == lo + |Path(c)| + |Header(c)| + 1
    ensures out[lo..head] == Path(c) + Seal(Header(c))
    ensures Outside(out, lo, head)
  {
    ghost var path, header := Path(c), Header(c);
    head := PutAll(out, lo, lo, Path(c));
    assert out[lo..head] == path;
    head := PutHeader(c, out, lo, head);
    head := PutHeaderCrc(out, lo, head, path, header, lo + |Path(c)|);
  }

  lemma Parts(c: Config)
    requires Buildable(c)
    ensures |Path(c)| + |Header(c)| + 1 + |Body(c)| == TotalSize(c)
  {
  }

  /** The whole packet. */
  method PutPacket(c: Config, out: array<byte>, lo: nat) returns (head: nat)
    requires Buildable(c) && lo + TotalSize(c) <= out.Length
    modifies out
    ensures head == lo + TotalSize(c)
    ensures out[lo..head] == Encode(c)
    ensures Outside(out, lo, head)
  {
    Parts(c);
    head := PutSealedHeader(c, out, lo);
    if c.Write? || c.ReadReply? {
      head := PutData(out, lo, head, c.data);
    } else {
      assert (Path(c) + Seal(Header(c))) + [] == Path(c) + Seal(Header(c));
    }
  }

  /** `build` of all four builders writes the encoding at the front of the span that starts at `lo`, touches nothing
      else, and fails exactly when the span is smaller than the announced size. */
  method Build(c: Config, out: array<byte>, lo: nat) returns (r: Result<nat, BuildError>)
    requires Buildable(c) && lo <= out.Length
    modifies out
    ensures r == if out.Length - lo < TotalSize(c) then Err(NoBufferSpace) else Ok(TotalSize(c))
    ensures r.Err? ==> out[..] == old(out[..])
    ensures r.Ok? ==> out[lo..lo + TotalSize(c)] == Encode(c) && Outside(out, lo, lo + TotalSize(c))
  {
    if out.Length - lo < TotalSize(c) {
      return Err(NoBufferSpace);
    }
    var head := PutPacket(c, out, lo);
    return Ok(head - lo);
  }
}
