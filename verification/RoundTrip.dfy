/** Building and parsing undo each other: exactly which configurations survive the trip, that distinct ones
    never build the same bytes, and exactly which accepted packets are rebuilt byte for byte. */
module RoundTrip {
  import opened Bytes
  import opened CrcErrorDetection
  import opened Packets
  import opened PacketParsing
  import opened PacketLanguage

  predicate NoLeadingZero(address: seq<byte>) {
    address == [] || address[0] != 0
  }

  function FirstByte(c: Config): byte {
    if c.Read? || c.Write? then c.targetLogical else c.initiatorLogical
  }

  /** The configurations a parse recovers. */
  predicate WellFormed(c: Config) {
    && Routing(Path(c))
    && FirstByte(c) >= FIRST_LOGICAL_ADDRESS
    && (c.Read? || c.Write? ==> |c.replyAddress| <= 12 && NoLeadingZero(c.replyAddress))
    && (c.Read? ==> c.dataLength < 0x100_0000)
    && (c.Write? || c.ReadReply? ==> |c.data| < 0x100_0000)
  }

  // ---------- de-padding ----------

  lemma {:induction false} StripZeros(n: nat, address: seq<byte>)
    requires NoLeadingZero(address)
    ensures Strip(ZeroBytes(n) + address) == address
  {
    if n == 0 {
      assert ZeroBytes(0) + address == address;
    } else {
      assert (ZeroBytes(n) + address)[1..] == ZeroBytes(n - 1) + address;
      StripZeros(n - 1, address);
    }
  }

  /** Stripping yields the shortest suffix: it never starts with zero and only zeros were removed. */
  lemma {:induction false} StripShape(field: seq<byte>)
    ensures NoLeadingZero(Strip(field))
    ensures |Strip(field)| <= |field| && field == ZeroBytes(|field| - |Strip(field)|) + Strip(field)
  {
    if field != [] && field[0] == 0 {
      StripShape(field[1..]);
      var n := |field| - |Strip(field)|;
      assert field == [0] + field[1..];
      assert ZeroBytes(n) == [0] + ZeroBytes(n - 1);
    }
  }

  /** De-padding inverts the builder's padding exactly on addresses without a leading zero. */
  lemma StripPad(address: seq<byte>)
    ensures Strip(Pad(address)) == address <==> NoLeadingZero(address)
  {
    if NoLeadingZero(address) {
      StripZeros(PaddedSize(|address|) - |address|, address);
    }
    StripShape(Pad(address));
  }

  // ---------- headers ----------

  function KindOfConfig(c: Config): Kind {
    match c
    case Read(_, _, _, _, _, _, _, _, _, _) => ReadKind
    case Write(_, _, _, _, _, _, _, _, _, _, _, _) => WriteKind
    case ReadReply(_, _, _, _, _, _, _) => ReadReplyKind
    case WriteReply(_, _, _, _, _, _, _) => WriteReplyKind
  }

  lemma InstructionKind(c: Config)
    requires Buildable(c)
    ensures KindOf(Instruction(c)) == KindOfConfig(c)
    ensures c.Read? || c.Write? ==> ReplyFieldSize(Instruction(c)) == PaddedSize(|c.replyAddress|)
  {
    if c.Read? || c.Write? {
      assert PaddedSize(|c.replyAddress|) / 4 <= 3;
    }
  }

  lemma HeaderShape(c: Config)
    requires Buildable(c)
    ensures |Header(c)| == HeaderSize(Instruction(c))
    ensures |Header(c)| >= 7 && Header(c)[0] == FirstByte(c) && Header(c)[1] == PROTOCOL_ID
    ensures Header(c)[2] == Instruction(c)
  {
    InstructionKind(c);
  }

  function Data(c: Config): seq<byte> {
    if c.Write? || c.ReadReply? then c.data else []
  }

  lemma TailDecodes(initiator: byte, tid: uint16, ext: byte, address: uint32, length: uint24)
    ensures var t := CommandTail(initiator, tid, ext, address, length);
            && t[0] == initiator && FromBe16(t[1..3]) == tid && t[3] == ext
            && FromBe32(t[4..8]) == address && FromBe24(t[8..11]) == length
  {
    var t := CommandTail(initiator, tid, ext, address, length);
    assert t[1..3] == Be16(tid) && t[4..8] == Be32(address) && t[8..11] == Be24(length);
    FromBe16Be16(tid);
    FromBe32Be32(address);
    FromBe24Be24(length);
  }

  function Length(c: Config): nat
    requires c.Read? || c.Write?
  {
    if c.Read? then c.dataLength else |c.data|
  }

  lemma CommandParts(c: Config)
    requires Buildable(c) && (c.Read? || c.Write?)
    ensures var h := Header(c);
            && |h| == 15 + PaddedSize(|c.replyAddress|)
            && h[3] == c.key && h[4..|h| - 11] == Pad(c.replyAddress)
            && h[|h| - 11..] ==
               CommandTail(c.initiatorLogical, c.transactionId, c.extendedAddress, c.address, Length(c))
            && h[|h| - 3..] == h[|h| - 11..][8..11]
  {
    var h := Header(c);
    var t := CommandTail(c.initiatorLogical, c.transactionId, c.extendedAddress, c.address, Length(c));
    assert h == [c.targetLogical, PROTOCOL_ID, Instruction(c), c.key] + Pad(c.replyAddress) + t;
    SubSlice(h, |h| - 11, |h|, 8, 11);
    assert h[|h| - 3..] == h[|h| - 3..|h|] && h[|h| - 11..|h|] == h[|h| - 11..];
  }

  lemma CommandHeaderMeaning(c: Config)
    requires WellFormed(c) && (c.Read? || c.Write?)
    ensures LegalHeader(Header(c)) && Meaning(c.targetPath, Header(c), Data(c)) == Expected(c)
    ensures c.Write? ==> LengthField(Header(c)) == |c.data|
  {
    InstructionKind(c);
    HeaderShape(c);
    StripPad(c.replyAddress);
    CommandParts(c);
    TailDecodes(c.initiatorLogical, c.transactionId, c.extendedAddress, c.address, Length(c));
  }

  lemma ReplyHeaderMeaning(c: Config)
    requires WellFormed(c) && (c.ReadReply? || c.WriteReply?)
    ensures LegalHeader(Header(c)) && Meaning(c.replyAddress, Header(c), Data(c)) == Expected(c)
    ensures c.ReadReply? ==> LengthField(Header(c)) == |c.data|
  {
    InstructionKind(c);
    HeaderShape(c);
    var h := Header(c);
    assert h[5..7] == Be16(c.transactionId);
    FromBe16Be16(c.transactionId);
    if c.ReadReply? {
      assert h[8..11] == Be24(|c.data|) && h[|h| - 3..] == h[8..11];
      FromBe24Be24(|c.data|);
    }
  }

  /** The header of a well-formed configuration is legal and means what the configuration says. */
  lemma HeaderMeaning(c: Config)
    requires WellFormed(c)
    ensures LegalHeader(Header(c)) && KindOf(Header(c)[2]) == KindOfConfig(c)
    ensures Meaning(Path(c), Header(c), Data(c)) == Expected(c)
    ensures c.Write? || c.ReadReply? ==> LengthField(Header(c)) == |c.data|
  {
    InstructionKind(c);
    HeaderShape(c);
    if c.Read? || c.Write? {
      CommandHeaderMeaning(c);
    } else {
      ReplyHeaderMeaning(c);
    }
  }

  // ---------- build, then parse ----------

  /** Whatever the parser did before, parsing the bytes of a well-formed configuration succeeds and recovers
      every field. */
  lemma BuildParse(c: Config, p: Packet)
    requires WellFormed(c)
    ensures Verdict(Encode(c)) == Success
    ensures After(p, Encode(c)).kind.Some?
    ensures View(After(p, Encode(c))) == Expected(c)
  {
    EncodeDerives(c);
    HeaderMeaning(c);
    DerivedIsAccepted(Encode(c), Path(c), Header(c), Data(c), p);
  }

  lemma EncodeDerives(c: Config)
    requires WellFormed(c)
    ensures Derives(Encode(c), Path(c), Header(c), Data(c))
  {
    HeaderMeaning(c);
    assert Path(c) + Seal(Header(c)) + [] == Path(c) + Seal(Header(c));
  }

  /** Building and parsing recovers a configuration if and only if it is well-formed: routing bytes below 0x20,
      a first logical address of at least 0x20, a reply address without leading zero, and a data length
      that fits in 24 bits. */
  lemma RoundTripExact(c: Config, p: Packet)
    requires Buildable(c)
    ensures (Verdict(Encode(c)) == Success && View(After(p, Encode(c))) == Expected(c)) <==> WellFormed(c)
  {
    if WellFormed(c) {
      BuildParse(c, p);
    }
    if Verdict(Encode(c)) == Success && View(After(p, Encode(c))) == Expected(c) {
      var path, h, data := AcceptedIsDerived(Encode(c));
      DerivedIsAccepted(Encode(c), path, h, data, p);
      MeaningIsWellFormed(c, path, h, data);
    }
  }

  lemma MeaningIsWellFormed(c: Config, path: seq<byte>, h: seq<byte>, data: seq<byte>)
    requires Buildable(c) && Routing(path) && LegalHeader(h)
    requires CarriesData(KindOf(h[2])) ==> |data| == LengthField(h)
    requires Meaning(path, h, data) == Expected(c)
    ensures WellFormed(c)
  {
    if KindOf(h[2]).ReadKind? || KindOf(h[2]).WriteKind? {
      StripShape(h[4..|h| - 11]);
    }
  }

  /** Well-formed configurations, even of different kinds, never build the same bytes. */
  lemma EncodeInjective(c: Config, d: Config)
    requires WellFormed(c) && WellFormed(d)
    requires Encode(c) == Encode(d)
    ensures c == d
  {
    BuildParse(c, EMPTY_PACKET);
    BuildParse(d, EMPTY_PACKET);
    assert Expected(c) == Expected(d);
    InstructionFlags(c);
    InstructionFlags(d);
  }

  lemma InstructionFlags(c: Config)
    requires Buildable(c)
    ensures Has(Instruction(c), INCREMENT) == c.increment
    ensures c.Write? ==> Has(Instruction(c), REPLY) == c.reply
    ensures c.Write? || c.WriteReply? ==> Has(Instruction(c), VERIFY) == c.verify
  {
  }

  // ---------- parse, then build ----------

  /** The configuration that reproduces a parsed packet as far as a configuration can. */
  function Rebuild(v: Parsed): Config {
    match v
    case ReadCommand(path, reply, target, initiator, instr, key, tid, ext, address, length) =>
      Read(path, reply, target, initiator, tid, ext, address, length, key, Has(instr, INCREMENT))
    case WriteCommand(path, reply, target, initiator, instr, key, tid, ext, address, _, data) =>
      Write(path, reply, target, initiator, tid, key, ext, address,
            Has(instr, INCREMENT), Has(instr, REPLY), Has(instr, VERIFY), data)
    case ReadAnswer(path, initiator, instr, status, target, tid, _, data) =>
      ReadReply(path, initiator, status, target, tid, data, Has(instr, INCREMENT))
    case WriteAnswer(path, initiator, instr, status, target, tid) =>
      WriteReply(path, initiator, status, target, tid, Has(instr, INCREMENT), Has(instr, VERIFY))
  }

  /** A header the builders could have written: only their instruction bits, minimal reply-address padding, a
      zero reserved byte. */
  predicate Canonical(h: seq<byte>)
    requires LegalHeader(h)
  {
    var r := ReplyFieldSize(h[2]);
    && !Has(h[2], 0x80)
    && match KindOf(h[2])
       case ReadKind => Has(h[2], REPLY) && !Has(h[2], VERIFY) && r == PaddedSize(|Strip(h[4..|h| - 11])|)
       case WriteKind => r == PaddedSize(|Strip(h[4..|h| - 11])|)
       case ReadReplyKind => Has(h[2], REPLY) && !Has(h[2], VERIFY) && r == 0 && h[7] == 0
       case WriteReplyKind => Has(h[2], REPLY) && r == 0
  }

  lemma RebuiltIsWellFormed(path: seq<byte>, h: seq<byte>, data: seq<byte>)
    requires Routing(path) && LegalHeader(h)
    requires CarriesData(KindOf(h[2])) ==> |data| == LengthField(h)
    ensures WellFormed(Rebuild(Meaning(path, h, data)))
    ensures Path(Rebuild(Meaning(path, h, data))) == path
    ensures CarriesData(KindOf(h[2])) ==> Data(Rebuild(Meaning(path, h, data))) == data
    ensures KindOfConfig(Rebuild(Meaning(path, h, data))) == KindOf(h[2])
  {
    var r := ReplyFieldSize(h[2]);
    if KindOf(h[2]).ReadKind? || KindOf(h[2]).WriteKind? {
      StripShape(h[4..|h| - 11]);
    }
  }

  /** Rebuilding the instruction byte gives it back exactly when only builder bits are set. */
  lemma RebuiltInstruction(path: seq<byte>, h: seq<byte>, data: seq<byte>)
    requires Routing(path) && LegalHeader(h)
    requires CarriesData(KindOf(h[2])) ==> |data| == LengthField(h)
    ensures var c := Rebuild(Meaning(path, h, data));
            Buildable(c) && (Instruction(c) == h[2] && (KindOf(h[2]).ReadReplyKind? ==> h[7] == 0)
                             <==> Canonical(h))
  {
    RebuiltIsWellFormed(path, h, data);
    var c := Rebuild(Meaning(path, h, data));
    match KindOf(h[2])
    case ReadKind =>
      RebuiltCommandInstruction(c, h);
    case WriteKind =>
      RebuiltCommandInstruction(c, h);
    case ReadReplyKind =>
      InstructionBits(h[2], 0);
      assert Instruction(c) == REPLY + FlagIf(Has(h[2], INCREMENT), INCREMENT);
    case WriteReplyKind =>
      InstructionBits(h[2], 0);
      assert Instruction(c) ==
        WRITE + REPLY + FlagIf(Has(h[2], VERIFY), VERIFY) + FlagIf(Has(h[2], INCREMENT), INCREMENT);
  }

  lemma RebuiltCommandInstruction(c: Config, h: seq<byte>)
    requires LegalHeader(h) && Buildable(c)
    requires KindOf(h[2]) == KindOfConfig(c) && (c.Read? || c.Write?)
    requires c.replyAddress == Strip(h[4..|h| - 11])
    requires c.increment == Has(h[2], INCREMENT)
    requires c.Write? ==> c.reply == Has(h[2], REPLY) && c.verify == Has(h[2], VERIFY)
    ensures Instruction(c) == h[2] <==> Canonical(h)
  {
    var words := PaddedSize(|c.replyAddress|) / 4;
    assert PaddedSize(|c.replyAddress|) == 4 * words && words <= 3;
    InstructionBits(h[2], words);
  }

  /** An instruction byte is the sum of the builder's bits exactly when it has no others. */
  lemma InstructionBits(i: byte, words: nat)
    requires words <= 3
    ensures KindOf(i).ReadKind? ==>
      (COMMAND + REPLY + FlagIf(Has(i, INCREMENT), INCREMENT) + words == i
       <==> !Has(i, 0x80) && Has(i, REPLY) && !Has(i, VERIFY) && i % 4 == words)
    ensures KindOf(i).WriteKind? ==>
      (COMMAND + WRITE + FlagIf(Has(i, REPLY), REPLY) + FlagIf(Has(i, VERIFY), VERIFY)
       + FlagIf(Has(i, INCREMENT), INCREMENT) + words == i
       <==> !Has(i, 0x80) && i % 4 == words)
    ensures KindOf(i).ReadReplyKind? ==>
      (REPLY + FlagIf(Has(i, INCREMENT), INCREMENT) + words == i
       <==> !Has(i, 0x80) && Has(i, REPLY) && !Has(i, VERIFY) && i % 4 == words)
    ensures KindOf(i).WriteReplyKind? ==>
      (WRITE + REPLY + FlagIf(Has(i, VERIFY), VERIFY) + FlagIf(Has(i, INCREMENT), INCREMENT) + words == i
       <==> !Has(i, 0x80) && Has(i, REPLY) && i % 4 == words)
  {
    var x2, x3, x4, x5, x6, x7 := BinaryDigits(i);
  }

  /** The binary digits of an instruction byte above the two reply-address bits. */
  lemma BinaryDigits(i: byte) returns (x2: nat, x3: nat, x4: nat, x5: nat, x6: nat, x7: nat)
    ensures x2 <= 1 && x3 <= 1 && x4 <= 1 && x5 <= 1 && x6 <= 1 && x7 <= 1
    ensures i == 128 * x7 + 64 * x6 + 32 * x5 + 16 * x4 + 8 * x3 + 4 * x2 + i % 4
    ensures Has(i, INCREMENT) <==> x2 == 1
    ensures Has(i, REPLY) <==> x3 == 1
    ensures Has(i, VERIFY) <==> x4 == 1
    ensures Has(i, WRITE) <==> x5 == 1
    ensures Has(i, COMMAND) <==> x6 == 1
    ensures Has(i, 0x80) <==> x7 == 1
  {
    x2, x3, x4 := i / 4 % 2, i / 8 % 2, i / 16 % 2;
    x5, x6, x7 := i / 32 % 2, i / 64 % 2, i / 128 % 2;
    LowDigits(i);
    HighDigits(i);
  }

  lemma LowDigits(i: byte)
    ensures i == 32 * (i / 32) + 16 * (i / 16 % 2) + 8 * (i / 8 % 2) + 4 * (i / 4 % 2) + i % 4
  {
    assert i / 16 == 2 * (i / 32) + i / 16 % 2;
    assert i / 8 == 2 * (i / 16) + i / 8 % 2;
    assert i / 4 == 2 * (i / 8) + i / 4 % 2;
  }

  lemma HighDigits(i: byte)
    ensures i / 32 == 4 * (i / 128 % 2) + 2 * (i / 64 % 2) + i / 32 % 2
  {
    assert i / 64 == 2 * (i / 128) + i / 64 % 2;
    assert i / 32 == 2 * (i / 64) + i / 32 % 2;
  }

  lemma TailEncodes(t: seq<byte>, length: nat)
    requires |t| == 11 && length == FromBe24(t[8..11])
    ensures CommandTail(t[0], FromBe16(t[1..3]), t[3], FromBe32(t[4..8]), length) == t
  {
    Be16FromBe16(t[1..3]);
    Be32FromBe32(t[4..8]);
    Be24FromBe24(t[8..11]);
    assert t == [t[0]] + t[1..3] + [t[3]] + t[4..8] + t[8..11];
  }

  lemma PadStrip(field: seq<byte>)
    requires |field| == PaddedSize(|Strip(field)|)
    ensures Pad(Strip(field)) == field
  {
    StripShape(field);
  }

  lemma RebuiltTail(path: seq<byte>, h: seq<byte>, data: seq<byte>)
    requires LegalHeader(h) && (KindOf(h[2]).ReadKind? || KindOf(h[2]).WriteKind?)
    requires CarriesData(KindOf(h[2])) ==> |data| == LengthField(h)
    ensures var c := Rebuild(Meaning(path, h, data));
            (c.Read? || c.Write?) &&
            CommandTail(c.initiatorLogical, c.transactionId, c.extendedAddress, c.address, Length(c)) == h[|h| - 11..]
  {
    var t := h[|h| - 11..];
    SubSlice(h, |h| - 11, |h|, 8, 11);
    assert h[|h| - 3..] == h[|h| - 3..|h|] && h[|h| - 11..|h|] == t;
    var c := Rebuild(Meaning(path, h, data));
    assert c.initiatorLogical == t[0] && c.transactionId == FromBe16(t[1..3]) && c.extendedAddress == t[3];
    assert c.address == FromBe32(t[4..8]);
    TailEncodes(t, Length(c));
  }

  lemma RebuiltCommandHeader(path: seq<byte>, h: seq<byte>, data: seq<byte>)
    requires Routing(path) && LegalHeader(h) && Canonical(h)
    requires KindOf(h[2]).ReadKind? || KindOf(h[2]).WriteKind?
    requires CarriesData(KindOf(h[2])) ==> |data| == LengthField(h)
    ensures var c := Rebuild(Meaning(path, h, data)); Buildable(c) && Header(c) == h
  {
    var c := Rebuild(Meaning(path, h, data));
    var field, t := h[4..|h| - 11], h[|h| - 11..];
    assert Buildable(c) && Instruction(c) == h[2] by { RebuiltInstruction(path, h, data); }
    assert Pad(c.replyAddress) == field by { PadStrip(field); }
    RebuiltTail(path, h, data);
    assert c.targetLogical == h[0] && c.key == h[3];
    assert Header(c) == [h[0], h[1], h[2], h[3]] + field + t;
    SplitHeader(h);
  }

  lemma SplitHeader(h: seq<byte>)
    requires 15 <= |h|
    ensures h == [h[0], h[1], h[2], h[3]] + h[4..|h| - 11] + h[|h| - 11..]
  {
    assert h[..4] == [h[0], h[1], h[2], h[3]];
    assert h == h[..4] + h[4..|h| - 11] + h[|h| - 11..];
  }

  lemma RebuiltReplyHeader(path: seq<byte>, h: seq<byte>, data: seq<byte>)
    requires Routing(path) && LegalHeader(h) && Canonical(h)
    requires KindOf(h[2]).ReadReplyKind? || KindOf(h[2]).WriteReplyKind?
    requires CarriesData(KindOf(h[2])) ==> |data| == LengthField(h)
    ensures var c := Rebuild(Meaning(path, h, data)); Buildable(c) && Header(c) == h
  {
    RebuiltInstruction(path, h, data);
    Be16FromBe16(h[5..7]);
    if KindOf(h[2]).ReadReplyKind? {
      assert h[|h| - 3..] == h[8..11];
      Be24FromBe24(h[8..11]);
      assert h == [h[0], h[1], h[2], h[3], h[4]] + h[5..7] + [h[7]] + h[8..11];
    } else {
      assert h == [h[0], h[1], h[2], h[3], h[4]] + h[5..7];
    }
  }

  /** A canonical header is rebuilt byte for byte. */
  lemma RebuiltHeader(path: seq<byte>, h: seq<byte>, data: seq<byte>)
    requires Routing(path) && LegalHeader(h) && Canonical(h)
    requires CarriesData(KindOf(h[2])) ==> |data| == LengthField(h)
    ensures var c := Rebuild(Meaning(path, h, data)); Buildable(c) && Header(c) == h
  {
    if KindOf(h[2]).ReadKind? || KindOf(h[2]).WriteKind? {
      RebuiltCommandHeader(path, h, data);
    } else {
      RebuiltReplyHeader(path, h, data);
    }
  }

  /** Rebuilding an accepted packet from its parsed fields gives back exactly its bytes if and only if its header
      is canonical. */
  lemma ParseBuildExact(input: seq<byte>, path: seq<byte>, h: seq<byte>, data: seq<byte>, p: Packet)
    requires Derives(input, path, h, data)
    ensures After(p, input).kind.Some?
    ensures var c := Rebuild(View(After(p, input)));
            Buildable(c) && (Encode(c) == input <==> Canonical(h))
  {
    DerivedIsAccepted(input, path, h, data, p);
    RebuiltIsWellFormed(path, h, data);
    if Canonical(h) {
      CanonicalRebuilds(input, path, h, data);
    }
    if Encode(Rebuild(Meaning(path, h, data))) == input {
      RebuiltIsCanonical(input, path, h, data);
    }
  }

  lemma CanonicalRebuilds(input: seq<byte>, path: seq<byte>, h: seq<byte>, data: seq<byte>)
    requires Derives(input, path, h, data) && Canonical(h)
    ensures var c := Rebuild(Meaning(path, h, data)); Buildable(c) && Encode(c) == input
  {
    RebuiltIsWellFormed(path, h, data);
    RebuiltHeader(path, h, data);
    RebuiltBytes(Rebuild(Meaning(path, h, data)), input, path, h, data);
  }

  lemma RebuiltIsCanonical(input: seq<byte>, path: seq<byte>, h: seq<byte>, data: seq<byte>)
    requires Derives(input, path, h, data)
    requires var c := Rebuild(Meaning(path, h, data)); Buildable(c) && Encode(c) == input
    ensures Canonical(h)
  {
    var c := Rebuild(Meaning(path, h, data));
    RebuiltIsWellFormed(path, h, data);
    RebuiltInstruction(path, h, data);
    HeaderShape(c);
    SameHeaderBytes(c, input, path, h, data);
  }

  lemma RebuiltBytes(c: Config, input: seq<byte>, path: seq<byte>, h: seq<byte>, data: seq<byte>)
    requires Derives(input, path, h, data)
    requires Buildable(c) && Path(c) == path && Header(c) == h && KindOfConfig(c) == KindOf(h[2])
    requires CarriesData(KindOf(h[2])) ==> Data(c) == data
    ensures Encode(c) == input
  {
    assert path + Seal(h) + [] == path + Seal(h);
  }

  lemma SameHeaderBytes(c: Config, input: seq<byte>, path: seq<byte>, h: seq<byte>, data: seq<byte>)
    requires Derives(input, path, h, data)
    requires Buildable(c) && Path(c) == path && Encode(c) == input
    ensures forall i :: 0 <= i < |Header(c)| && i < |h| ==> Header(c)[i] == h[i]
  {
    forall i | 0 <= i < |Header(c)| && i < |h|
      ensures Header(c)[i] == h[i]
    {
      assert Encode(c)[|path| + i] == Header(c)[i];
      assert input[|path| + i] == h[i];
    }
  }

  // ---------- damaged replies ----------

  /** One, two or three flipped bits in the 12-byte header of a valid read reply, CRC byte included, are reported
      as a header CRC error, whatever data follows. */
  lemma DamagedReadReply(b: seq<byte>, q: seq<byte>)
    requires ReadReplyVerdict(b) == Success
    requires 12 <= |q| && 1 <= Weight(Flips(b[..12], q[..12])) <= 3
    ensures ReadReplyVerdict(q) == HeaderCRCError
  {
    FewFlipsChangeCrc(b[..12], q[..12], 0);
  }

  /** The same for the 8 bytes of a write reply. */
  lemma DamagedWriteReply(b: seq<byte>, q: seq<byte>)
    requires WriteReplyVerdict(b) == Success
    requires |q| == 8 && 1 <= Weight(Flips(b, q)) <= 3
    ensures WriteReplyVerdict(q) == HeaderCRCError
  {
    FewFlipsChangeCrc(b, q, 0);
  }
}
