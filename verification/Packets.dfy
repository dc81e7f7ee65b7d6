/** The RMAP packet format: the four packet configurations of packet_builder.hh, the bytes each stands for,
    and the language and meaning of the packets that the parser accepts. */
module Packets {
  import opened Bytes
  import opened RmapCrc

  // ---------- constants of rmap_packet_type.hh ----------

  const PROTOCOL_ID: byte := 0x01
  const COMMAND: byte := 0x40
  const WRITE: byte := 0x20
  const VERIFY: byte := 0x10
  const REPLY: byte := 0x08
  const INCREMENT: byte := 0x04

  /** Bytes below this value route a packet; the first byte at or above it is a logical address. */
  const FIRST_LOGICAL_ADDRESS: byte := 0x20

  /** `(instruction & flag) != 0` for a single-bit flag. */
  predicate Has(instruction: byte, flag: byte)
    requires flag != 0
  {
    instruction / flag % 2 == 1
  }

  function FlagIf(on: bool, flag: byte): byte {
    if on then flag else 0
  }

  // ---------- configurations ----------

  datatype Config =
    | Read(targetPath: seq<byte>, replyAddress: seq<byte>, targetLogical: byte, initiatorLogical: byte,
           transactionId: uint16, extendedAddress: byte, address: uint32, dataLength: uint32, key: byte,
           increment: bool)
    | Write(targetPath: seq<byte>, replyAddress: seq<byte>, targetLogical: byte, initiatorLogical: byte,
            transactionId: uint16, key: byte, extendedAddress: byte, address: uint32,
            increment: bool, reply: bool, verify: bool, data: seq<byte>)
    | ReadReply(replyAddress: seq<byte>, initiatorLogical: byte, status: byte, targetLogical: byte,
                transactionId: uint16, data: seq<byte>, increment: bool)
    | WriteReply(replyAddress: seq<byte>, initiatorLogical: byte, status: byte, targetLogical: byte,
                 transactionId: uint16, increment: bool, verify: bool)

  // ---------- encoding ----------

  /** The number of bytes the reply address occupies in a command: whole four-byte words. */
  function PaddedSize(n: nat): nat {
    (n + 3) / 4 * 4
  }

  /** The builder's own expression for it, `((n - 1) & 0x0C) + 0x04`, for a non-empty address; InstructionBytes shows
      that the mask is this arithmetic. */
  function MaskedSize(n: nat): nat
    requires 0 < n
  {
    (n - 1) / 4 % 4 * 4 + 4
  }

  lemma PaddingAgrees(n: nat)
    requires 0 < n <= 12
    ensures MaskedSize(n) == PaddedSize(n) && PaddedSize(n) - n < 4 && MaskedSize(n) / 4 <= 3
  {
  }

  function ZeroBytes(n: nat): (s: seq<byte>)
    ensures |s| == n && forall i :: 0 <= i < n ==> s[i] == 0
  {
    seq(n, i => 0)
  }

  function Pad(address: seq<byte>): (s: seq<byte>)
    ensures |s| == PaddedSize(|address|)
  {
    ZeroBytes(PaddedSize(|address|) - |address|) + address
  }

  /** What the command builders assert of their caller. */
  predicate Buildable(c: Config) {
    c.Read? || c.Write? ==> |c.replyAddress| <= 12
  }

  /** The instruction byte. The source ORs distinct bits into zero; InstructionBytes shows that this is
      addition. */
  function Instruction(c: Config): byte
    requires Buildable(c)
  {
    match c
    case Read(_, _, _, _, _, _, _, _, _, _) =>
      COMMAND + REPLY + FlagIf(c.increment, INCREMENT) + PaddedSize(|c.replyAddress|) / 4
    case Write(_, _, _, _, _, _, _, _, _, _, _, _) =>
      COMMAND + WRITE + FlagIf(c.reply, REPLY) + FlagIf(c.verify, VERIFY) + FlagIf(c.increment, INCREMENT)
      + PaddedSize(|c.replyAddress|) / 4
    case ReadReply(_, _, _, _, _, _, _) =>
      REPLY + FlagIf(c.increment, INCREMENT)
    case WriteReply(_, _, _, _, _, _, _) =>
      WRITE + REPLY + FlagIf(c.verify, VERIFY) + FlagIf(c.increment, INCREMENT)
  }

  /** The routing bytes in front of the packet proper. */
  function Path(c: Config): seq<byte> {
    if c.Read? || c.Write? then c.targetPath else c.replyAddress
  }

  /** The fixed-size end of a command header. */
  function CommandTail(initiator: byte, tid: uint16, ext: byte, address: uint32, length: nat): (s: seq<byte>)
    ensures |s| == 11
  {
    [initiator] + Be16(tid) + [ext] + Be32(address) + Be24(length)
  }

  /** The header without its CRC. */
  function Header(c: Config): seq<byte>
    requires Buildable(c)
  {
    match c
    case Read(_, _, _, _, _, _, _, _, _, _) =>
      [c.targetLogical, PROTOCOL_ID, Instruction(c), c.key] + Pad(c.replyAddress)
      + CommandTail(c.initiatorLogical, c.transactionId, c.extendedAddress, c.address, c.dataLength)
    case Write(_, _, _, _, _, _, _, _, _, _, _, _) =>
      [c.targetLogical, PROTOCOL_ID, Instruction(c), c.key] + Pad(c.replyAddress)
      + CommandTail(c.initiatorLogical, c.transactionId, c.extendedAddress, c.address, |c.data|)
    case ReadReply(_, _, _, _, _, _, _) =>
      [c.initiatorLogical, PROTOCOL_ID, Instruction(c), c.status, c.targetLogical]
      + Be16(c.transactionId) + [0] + Be24(|c.data|)
    case WriteReply(_, _, _, _, _, _, _) =>
      [c.initiatorLogical, PROTOCOL_ID, Instruction(c), c.status, c.targetLogical]
      + Be16(c.transactionId)
  }

  /** Bytes followed by their CRC. */
  function Seal(s: seq<byte>): seq<byte> {
    s + [Crc(s)]
  }

  /** The data part: present in write commands and read replies only. */
  function Body(c: Config): seq<byte> {
    if c.Write? || c.ReadReply? then Seal(c.data) else []
  }

  function Encode(c: Config): seq<byte>
    requires Buildable(c)
  {
    Path(c) + Seal(Header(c)) + Body(c)
  }

  // ---------- the accepted language ----------

  datatype Kind = ReadKind | WriteKind | ReadReplyKind | WriteReplyKind

  function KindOf(instruction: byte): Kind {
    if Has(instruction, COMMAND)
    then if Has(instruction, WRITE) then WriteKind else ReadKind
    else if Has(instruction, WRITE) then WriteReplyKind else ReadReplyKind
  }

  predicate CarriesData(k: Kind) {
    k.WriteKind? || k.ReadReplyKind?
  }

  /** `(instruction & 3) * 4`: the bytes a command reserves for the reply address. */
  function ReplyFieldSize(instruction: byte): nat {
    instruction % 4 * 4
  }

  function HeaderSize(instruction: byte): nat {
    match KindOf(instruction)
    case ReadKind => 15 + ReplyFieldSize(instruction)
    case WriteKind => 15 + ReplyFieldSize(instruction)
    case ReadReplyKind => 11
    case WriteReplyKind => 7
  }

  predicate LegalHeader(h: seq<byte>) {
    && 7 <= |h| == HeaderSize(h[2])
    && h[0] >= FIRST_LOGICAL_ADDRESS
    && h[1] == PROTOCOL_ID
  }

  /** The data length written in a header: its last three bytes. */
  function LengthField(h: seq<byte>): uint24
    requires LegalHeader(h) && !KindOf(h[2]).WriteReplyKind?
  {
    FromBe24(h[|h| - 3..])
  }

  predicate Routing(path: seq<byte>) {
    forall i :: 0 <= i < |path| ==> path[i] < FIRST_LOGICAL_ADDRESS
  }

  /** `input` is a routing path, a sealed legal header, and, for the kinds that carry data, exactly the
      announced number of data bytes, sealed. */
  predicate Derives(input: seq<byte>, path: seq<byte>, h: seq<byte>, data: seq<byte>) {
    && Routing(path)
    && LegalHeader(h)
    && (if CarriesData(KindOf(h[2]))
        then |data| == LengthField(h) && input == path + Seal(h) + Seal(data)
        else data == [] && input == path + Seal(h))
  }

  // ---------- meaning ----------

  /** The fields that belong to each packet kind. */
  datatype Parsed =
    | ReadCommand(targetPath: seq<byte>, replyAddress: seq<byte>, targetLogical: byte, initiatorLogical: byte,
                  instruction: byte, key: byte, transactionId: uint16, extendedAddress: byte,
                  address: uint32, readLength: uint32)
    | WriteCommand(targetPath: seq<byte>, replyAddress: seq<byte>, targetLogical: byte, initiatorLogical: byte,
                   instruction: byte, key: byte, transactionId: uint16, extendedAddress: byte,
                   address: uint32, dataLength: nat, data: seq<byte>)
    | ReadAnswer(replyAddress: seq<byte>, initiatorLogical: byte, instruction: byte, status: byte,
                 targetLogical: byte, transactionId: uint16, dataLength: nat, data: seq<byte>)
    | WriteAnswer(replyAddress: seq<byte>, initiatorLogical: byte, instruction: byte, status: byte,
                  targetLogical: byte, transactionId: uint16)

  /** A reply-address field without its leading zeros. */
  function Strip(field: seq<byte>): seq<byte> {
    if field != [] && field[0] == 0 then Strip(field[1..]) else field
  }

  function Meaning(path: seq<byte>, h: seq<byte>, data: seq<byte>): Parsed
    requires LegalHeader(h)
  {
    match KindOf(h[2])
    case ReadKind =>
      var field, t := h[4..|h| - 11], h[|h| - 11..];
      ReadCommand(path, Strip(field), h[0], t[0], h[2], h[3], FromBe16(t[1..3]), t[3], FromBe32(t[4..8]),
                  FromBe24(t[8..11]))
    case WriteKind =>
      var field, t := h[4..|h| - 11], h[|h| - 11..];
      WriteCommand(path, Strip(field), h[0], t[0], h[2], h[3], FromBe16(t[1..3]), t[3], FromBe32(t[4..8]),
                   FromBe24(t[8..11]), data)
    case ReadReplyKind =>
      ReadAnswer(path, h[0], h[2], h[3], h[4], FromBe16(h[5..7]), FromBe24(h[8..11]), data)
    case WriteReplyKind =>
      WriteAnswer(path, h[0], h[2], h[3], h[4], FromBe16(h[5..7]))
  }

  /** What a parse of the packet built from `c` must recover. */
  function Expected(c: Config): Parsed
    requires Buildable(c)
  {
    match c
    case Read(_, _, _, _, _, _, _, _, _, _) =>
      ReadCommand(c.targetPath, c.replyAddress, c.targetLogical, c.initiatorLogical, Instruction(c), c.key,
                  c.transactionId, c.extendedAddress, c.address, c.dataLength)
    case Write(_, _, _, _, _, _, _, _, _, _, _, _) =>
      WriteCommand(c.targetPath, c.replyAddress, c.targetLogical, c.initiatorLogical, Instruction(c), c.key,
                   c.transactionId, c.extendedAddress, c.address, |c.data|, c.data)
    case ReadReply(_, _, _, _, _, _, _) =>
      ReadAnswer(c.replyAddress, c.initiatorLogical, Instruction(c), c.status, c.targetLogical,
                 c.transactionId, |c.data|, c.data)
    case WriteReply(_, _, _, _, _, _, _) =>
      WriteAnswer(c.replyAddress, c.initiatorLogical, Instruction(c), c.status, c.targetLogical,
                  c.transactionId)
  }
}
