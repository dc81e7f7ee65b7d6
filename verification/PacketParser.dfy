/** The packet parser of packet_parser.cc: an object whose packet is overwritten field by field, also by
    parses that fail half way. */
module PacketParsing {
  import opened Bytes
  import opened RmapCrc
  import opened Packets

  datatype Status =
    | Success
    | HeaderCRCError
    | DataCRCError
    | IncompletePacket
    | UnknownProtocolIdentifier

  /** The parser's record. `kind` is None until the first parse reaches its dispatch. */
  datatype Packet = Packet(
    targetSpaceWireAddress: seq<byte>, replyAddress: seq<byte>, initiatorLogicalAddress: byte,
    instruction: byte, key: byte, status: byte, targetLogicalAddress: byte, transactionId: uint16,
    extendedAddress: byte, address: uint32, dataLength: uint32, data: seq<byte>, kind: Option<Kind>)

  const EMPTY_PACKET := Packet([], [], 0, 0, 0, 0, 0, 0, 0, 0, 0, [], None)

  /** The fields of the record that belong to the kind it holds. */
  function View(p: Packet): Parsed
    requires p.kind.Some?
  {
    match p.kind.value
    case ReadKind =>
      ReadCommand(p.targetSpaceWireAddress, p.replyAddress, p.targetLogicalAddress, p.initiatorLogicalAddress,
                  p.instruction, p.key, p.transactionId, p.extendedAddress, p.address, p.dataLength)
    case WriteKind =>
      WriteCommand(p.targetSpaceWireAddress, p.replyAddress, p.targetLogicalAddress, p.initiatorLogicalAddress,
                   p.instruction, p.key, p.transactionId, p.extendedAddress, p.address, p.dataLength, p.data)
    case ReadReplyKind =>
      ReadAnswer(p.replyAddress, p.initiatorLogicalAddress, p.instruction, p.status, p.targetLogicalAddress,
                 p.transactionId, p.dataLength, p.data)
    case WriteReplyKind =>
      WriteAnswer(p.replyAddress, p.initiatorLogicalAddress, p.instruction, p.status, p.targetLogicalAddress,
                  p.transactionId)
  }

  // ---------- verdicts ----------

  /** The number of leading routing bytes. */
  function PathLength(input: seq<byte>): (n: nat)
    ensures n <= |input|
    ensures Routing(input[..n])
    ensures n < |input| ==> input[n] >= FIRST_LOGICAL_ADDRESS
  {
    if input != [] && input[0] < FIRST_LOGICAL_ADDRESS then
      var n := 1 + PathLength(input[1..]);
      assert forall i :: 1 <= i < n ==> input[i] == input[1..][i - 1];
      n
    else
      0
  }

  /** Read commands: the packet proper must have exactly the size its instruction implies. */
  function ReadVerdict(b: seq<byte>): Status {
    if |b| < 4 then IncompletePacket
    else if |b| != 16 + ReplyFieldSize(b[2]) then IncompletePacket
    else if Crc(b) != 0 then HeaderCRCError
    else if b[1] != PROTOCOL_ID then UnknownProtocolIdentifier
    else Success
  }

  function WriteVerdict(b: seq<byte>): Status {
    if |b| < 4 then IncompletePacket
    else
      var n := 16 + ReplyFieldSize(b[2]);
      if |b| <= n then IncompletePacket
      else if Crc(b[..n]) != 0 then HeaderCRCError
      else if b[1] != PROTOCOL_ID then UnknownProtocolIdentifier
      else if |b| != n + FromBe24(b[n - 12..n - 1][8..11]) + 1 then IncompletePacket
      else if Crc(b[n..]) != 0 then DataCRCError
      else Success
  }

  function ReadReplyVerdict(b: seq<byte>): Status {
    if |b| < 12 then IncompletePacket
    else if Crc(b[..12]) != 0 then HeaderCRCError
    else if b[1] != PROTOCOL_ID then UnknownProtocolIdentifier
    else if |b| != 12 + FromBe24(b[8..11]) + 1 then IncompletePacket
    else if Crc(b[12..]) != 0 then DataCRCError
    else Success
  }

  function WriteReplyVerdict(b: seq<byte>): Status {
    if |b| != 8 then IncompletePacket
    else if Crc(b) != 0 then HeaderCRCError
    else if b[1] != PROTOCOL_ID then UnknownProtocolIdentifier
    else Success
  }

  /** The verdict on a packet proper, dispatched on its instruction byte. */
  function BodyVerdict(b: seq<byte>): Status
    requires 4 <= |b|
  {
    match KindOf(b[2])
    case ReadKind => ReadVerdict(b)
    case WriteKind => WriteVerdict(b)
    case ReadReplyKind => ReadReplyVerdict(b)
    case WriteReplyKind => WriteReplyVerdict(b)
  }

  function Verdict(input: seq<byte>): Status {
    var b := input[PathLength(input)..];
    if |b| < 4 then IncompletePacket else BodyVerdict(b)
  }

  // ---------- what each parse leaves in the record ----------

  /** The command fields that follow the protocol identifier. */
  function WithCommandFields(p: Packet, b: seq<byte>): Packet
    requires 4 <= |b| && 16 + ReplyFieldSize(b[2]) <= |b|
  {
    var r := ReplyFieldSize(b[2]);
    var field, t := b[4..4 + r], b[4 + r..15 + r];
    p.(instruction := b[2], key := b[3], replyAddress := Strip(field), initiatorLogicalAddress := t[0],
       transactionId := FromBe16(t[1..3]), extendedAddress := t[3], address := FromBe32(t[4..8]),
       dataLength := FromBe24(t[8..11]))
  }

  function AfterRead(p: Packet, b: seq<byte>): Packet {
    match ReadVerdict(b)
    case UnknownProtocolIdentifier => p.(targetLogicalAddress := b[0])
    case Success => WithCommandFields(p.(targetLogicalAddress := b[0]), b)
    case _ => p
  }

  function AfterWrite(p: Packet, b: seq<byte>): Packet {
    if |b| < 4 || |b| <= 16 + ReplyFieldSize(b[2]) then p
    else
      var n := 16 + ReplyFieldSize(b[2]);
      var q := p.(targetLogicalAddress := b[0]);
      match WriteVerdict(b)
      case HeaderCRCError => p
      case UnknownProtocolIdentifier => q
      case Success => WithCommandFields(q, b).(data := b[n..|b| - 1])
      case _ => WithCommandFields(q, b)
  }

  /** The reply fields that follow the protocol identifier. */
  function WithReplyFields(p: Packet, b: seq<byte>): Packet
    requires 8 <= |b|
  {
    p.(instruction := b[2], status := b[3], targetLogicalAddress := b[4], transactionId := FromBe16(b[5..7]))
  }

  function AfterReadReply(p: Packet, b: seq<byte>): Packet {
    if |b| < 12 then p
    else
      var q := p.(initiatorLogicalAddress := b[0]);
      match ReadReplyVerdict(b)
      case HeaderCRCError => p
      case UnknownProtocolIdentifier => q
      case Success => WithReplyFields(q, b).(dataLength := FromBe24(b[8..11]), data := b[12..|b| - 1])
      case _ => WithReplyFields(q, b).(dataLength := FromBe24(b[8..11]))
  }

  function AfterWriteReply(p: Packet, b: seq<byte>): Packet {
    match WriteReplyVerdict(b)
    case UnknownProtocolIdentifier => p.(initiatorLogicalAddress := b[0])
    case Success => WithReplyFields(p.(initiatorLogicalAddress := b[0]), b)
    case _ => p
  }

  function AfterBody(p: Packet, path: seq<byte>, b: seq<byte>): Packet
    requires 4 <= |b|
  {
    var q := p.(instruction := b[2], kind := Some(KindOf(b[2])));
    match KindOf(b[2])
    case ReadKind => AfterRead(q.(targetSpaceWireAddress := path), b)
    case WriteKind => AfterWrite(q.(targetSpaceWireAddress := path), b)
    case ReadReplyKind => AfterReadReply(q.(replyAddress := path), b)
    case WriteReplyKind => AfterWriteReply(q.(replyAddress := path), b)
  }

  function After(p: Packet, input: seq<byte>): Packet {
    var k := PathLength(input);
    if |input[k..]| < 4 then p else AfterBody(p, input[..k], input[k..])
  }

  /** A successful parse has settled the packet's kind. */
  lemma ParsedHasKind(p: Packet, input: seq<byte>)
    requires Verdict(input) == Success
    ensures After(p, input).kind.Some? && input != []
  {
  }

  // ---------- the parser ----------

  /** The de-padding loop: `head` ends just after the field, and the address found is the field without its
      leading zeros. */
  method StripField(b: seq<byte>, start: nat, size: nat) returns (first: nat, actual: nat, head: nat)
    requires start + size <= |b|
    ensures head == start + size
    ensures first + actual == head && start <= first
    ensures b[first..first + actual] == Strip(b[start..start + size])
  {
    head := start;
    first := head;
    actual := size;
    var i := 0;
    while i < size
      invariant 0 <= i <= size
      invariant head == first == start + i && actual == size - i
      invariant Strip(b[start..start + size]) == Strip(b[head..start + size])
    {
      head := head + 1;
      if b[head - 1] == 0 {
        assert b[head - 1..start + size][1..] == b[head..start + size];
        first := head;
        actual := actual - 1;
      } else {
        head := head + actual - 1;
        break;
      }
      i := i + 1;
    }
  }

  class PacketParser {
    var packet: Packet

    constructor ()
      ensures packet == EMPTY_PACKET
    {
      packet := EMPTY_PACKET;
    }

    /** The fields from the instruction up to the data length of a command. */
    method ParseCommandFields(b: seq<byte>) returns (head: nat)
      requires 4 <= |b| && 16 + ReplyFieldSize(b[2]) <= |b|
      modifies this
      ensures packet == WithCommandFields(old(packet), b)
      ensures head == 15 + ReplyFieldSize(b[2])
    {
      head := 2;
      packet := packet.(instruction := b[head], key := b[head + 1]);
      var first, actual;
      var r := ReplyFieldSize(b[2]);
      first, actual, head := StripField(b, head + 2, r);
      SubSlice(b, 4 + r, 15 + r, 1, 3);
      SubSlice(b, 4 + r, 15 + r, 4, 8);
      SubSlice(b, 4 + r, 15 + r, 8, 11);
      packet := packet.(replyAddress := b[first..first + actual]);
      packet := packet.(initiatorLogicalAddress := b[head]);
      head := head + 1;
      packet := packet.(transactionId := FromBe16(b[head..head + 2]));
      head := head + 2;
      packet := packet.(extendedAddress := b[head]);
      head := head + 1;
      packet := packet.(address := FromBe32(b[head..head + 4]));
      head := head + 4;
      packet := packet.(dataLength := FromBe24(b[head..head + 3]));
      head := head + 3;
    }

    method ParseReadPacket(b: seq<byte>) returns (status: Status)
      modifies this
      ensures status == ReadVerdict(b)
      ensures packet == AfterRead(old(packet), b)
    {
      if |b| < 4 {
        return IncompletePacket;
      }
      var n := 16 + ReplyFieldSize(b[2]);
      if |b| != n {
        return IncompletePacket;
      }
      assert b[..n] == b;
      var crc := CalcCrc(b[..n], 0);
      if crc != 0 {
        return HeaderCRCError;
      }
      packet := packet.(targetLogicalAddress := b[0]);
      if b[1] != PROTOCOL_ID {
        return UnknownProtocolIdentifier;
      }
      var _ := ParseCommandFields(b);
      return Success;
    }

    method ParseWritePacket(b: seq<byte>) returns (status: Status)
      modifies this
      ensures status == WriteVerdict(b)
      ensures packet == AfterWrite(old(packet), b)
    {
      if |b| < 4 {
        return IncompletePacket;
      }
      var n := 16 + ReplyFieldSize(b[2]);
      if |b| <= n {
        return IncompletePacket;
      }
      var crc := CalcCrc(b[..n], 0);
      if crc != 0 {
        return HeaderCRCError;
      }
      packet := packet.(targetLogicalAddress := b[0]);
      if b[1] != PROTOCOL_ID {
        return UnknownProtocolIdentifier;
      }
      var head := ParseCommandFields(b);
      if |b| != n + packet.dataLength + 1 {
        return IncompletePacket;
      }
      assert b[n..n + (packet.dataLength + 1)] == b[n..];
      crc := CalcCrc(b[n..n + (packet.dataLength + 1)], 0);
      if crc != 0 {
        return DataCRCError;
      }
      head := head + 1;
      packet := packet.(data := b[head..head + packet.dataLength]);
      return Success;
    }

    method ParseReadReplyPacket(b: seq<byte>) returns (status: Status)
      modifies this
      ensures status == ReadReplyVerdict(b)
      ensures packet == AfterReadReply(old(packet), b)
    {
      if |b| < 12 {
        return IncompletePacket;
      }
      var crc := CalcCrc(b[..12], 0);
      if crc != 0 {
        return HeaderCRCError;
      }
      packet := packet.(initiatorLogicalAddress := b[0]);
      if b[1] != PROTOCOL_ID {
        return UnknownProtocolIdentifier;
      }
      packet := packet.(instruction := b[2], status := b[3], targetLogicalAddress := b[4],
                        transactionId := FromBe16(b[5..7]));
      packet := packet.(dataLength := FromBe24(b[8..11]));
      if |b| != 12 + packet.dataLength + 1 {
        return IncompletePacket;
      }
      assert b[12..12 + (packet.dataLength + 1)] == b[12..];
      crc := CalcCrc(b[12..12 + (packet.dataLength + 1)], 0);
      if crc != 0 {
        return DataCRCError;
      }
      packet := packet.(data := b[12..12 + packet.dataLength]);
      return Success;
    }

    method ParseWriteReplyPacket(b: seq<byte>) returns (status: Status)
      modifies this
      ensures status == WriteReplyVerdict(b)
      ensures packet == AfterWriteReply(old(packet), b)
    {
      if |b| != 8 {
        return IncompletePacket;
      }
      assert b[..8] == b;
      var crc := CalcCrc(b[..8], 0);
      if crc != 0 {
        return HeaderCRCError;
      }
      packet := packet.(initiatorLogicalAddress := b[0]);
      if b[1] != PROTOCOL_ID {
        return UnknownProtocolIdentifier;
      }
      packet := packet.(instruction := b[2], status := b[3], targetLogicalAddress := b[4],
                        transactionId := FromBe16(b[5..7]));
      return Success;
    }

    /** Skips the routing bytes, dispatches on the instruction byte and parses the packet proper. */
    method Parse(input: seq<byte>) returns (status: Status)
      requires input != []
      modifies this
      ensures status == Verdict(input)
      ensures packet == After(old(packet), input)
    {
      var head := 0;
      while input[head] < FIRST_LOGICAL_ADDRESS
        invariant head < |input|
        invariant PathLength(input) == head + PathLength(input[head..])
        invariant packet == old(packet)
        decreases |input| - head
      {
        assert input[head..][1..] == input[head + 1..];
        head := head + 1;
        if head >= |input| {
          return IncompletePacket;
        }
      }
      if |input| - head < 4 {
        return IncompletePacket;
      }
      var b := input[head..];
      packet := packet.(instruction := input[head + 2]);
      match KindOf(packet.instruction) {
        case ReadReplyKind =>
          packet := packet.(kind := Some(ReadReplyKind), replyAddress := input[..head]);
          status := ParseReadReplyPacket(b);
        case WriteReplyKind =>
          packet := packet.(kind := Some(WriteReplyKind), replyAddress := input[..head]);
          status := ParseWriteReplyPacket(b);
        case ReadKind =>
          packet := packet.(kind := Some(ReadKind), targetSpaceWireAddress := input[..head]);
          status := ParseReadPacket(b);
        case WriteKind =>
          packet := packet.(kind := Some(WriteKind), targetSpaceWireAddress := input[..head]);
          status := ParseWritePacket(b);
      }
    }
  }
}
