/** What the parser accepts and what it then reports: exactly the packets of the grammar, with a meaning that
    depends on the last input alone. */
module PacketLanguage {
  import opened Bytes
  import opened RmapCrc
  import opened Packets
  import opened PacketParsing

  lemma SealedResidue(s: seq<byte>)
    ensures Crc(Seal(s)) == 0
  {
    Residue(s, Crc(s), 0);
  }

  lemma ResidueSealed(s: seq<byte>)
    requires s != [] && Crc(s) == 0
    ensures s == Seal(s[..|s| - 1])
  {
    assert s == s[..|s| - 1] + [s[|s| - 1]];
    Residue(s[..|s| - 1], s[|s| - 1], 0);
  }

  lemma {:induction false} PathLengthOf(path: seq<byte>, rest: seq<byte>)
    requires Routing(path) && (rest == [] || rest[0] >= FIRST_LOGICAL_ADDRESS)
    ensures PathLength(path + rest) == |path|
  {
    if path == [] {
      assert path + rest == rest;
    } else {
      assert (path + rest)[1..] == path[1..] + rest;
      PathLengthOf(path[1..], rest);
    }
  }

  /** Every derivation of the grammar is accepted, and the record then holds its meaning, whatever it held
      before. */
  lemma DerivedIsAccepted(input: seq<byte>, path: seq<byte>, h: seq<byte>, data: seq<byte>, p: Packet)
    requires Derives(input, path, h, data)
    ensures Verdict(input) == Success
    ensures After(p, input).kind.Some? && View(After(p, input)) == Meaning(path, h, data)
  {
    var b := if CarriesData(KindOf(h[2])) then Seal(h) + Seal(data) else Seal(h);
    assert input == path + b;
    PathLengthOf(path, b);
    assert input[|path|..] == b && input[..|path|] == path;
    BodyAccepted(p, path, h, data, b);
  }

  lemma BodyAccepted(p: Packet, path: seq<byte>, h: seq<byte>, data: seq<byte>, b: seq<byte>)
    requires LegalHeader(h)
    requires if CarriesData(KindOf(h[2]))
             then |data| == LengthField(h) && b == Seal(h) + Seal(data)
             else data == [] && b == Seal(h)
    ensures 4 <= |b| && BodyVerdict(b) == Success
    ensures AfterBody(p, path, b).kind.Some? && View(AfterBody(p, path, b)) == Meaning(path, h, data)
  {
    SealedResidue(h);
    match KindOf(h[2])
    case ReadKind => ReadAccepted(p, path, h, b);
    case WriteKind => WriteAccepted(p, path, h, data, b);
    case ReadReplyKind => ReadReplyAccepted(p, path, h, data, b);
    case WriteReplyKind => WriteReplyAccepted(p, path, h, b);
  }

  /** The command fields read from a packet that starts with header `h` are those of `h`. */
  lemma CommandFields(p: Packet, h: seq<byte>, b: seq<byte>)
    requires LegalHeader(h) && (KindOf(h[2]).ReadKind? || KindOf(h[2]).WriteKind?)
    requires |b| > |h| && b[..|h|] == h
    ensures b[0] == h[0] && b[1] == h[1] && b[2] == h[2]
    ensures var field, t := h[4..|h| - 11], h[|h| - 11..];
            WithCommandFields(p, b) ==
            p.(instruction := h[2], key := h[3], replyAddress := Strip(field), initiatorLogicalAddress := t[0],
               transactionId := FromBe16(t[1..3]), extendedAddress := t[3], address := FromBe32(t[4..8]),
               dataLength := FromBe24(t[8..11]))
  {
    Slice(b, h, 4, |h| - 11);
    Slice(b, h, |h| - 11, |h|);
    assert h[|h| - 11..|h|] == h[|h| - 11..];
  }

  lemma Slice(b: seq<byte>, h: seq<byte>, i: nat, j: nat)
    requires i <= j <= |h| <= |b| && b[..|h|] == h
    ensures b[i..j] == h[i..j]
  {
    SubSlice(b, 0, |h|, i, j);
  }

  lemma ReadAccepted(p: Packet, path: seq<byte>, h: seq<byte>, b: seq<byte>)
    requires LegalHeader(h) && KindOf(h[2]).ReadKind?
    requires b == Seal(h) && Crc(b) == 0
    ensures ReadVerdict(b) == Success
    ensures var q := p.(instruction := h[2], kind := Some(ReadKind), targetSpaceWireAddress := path);
            AfterRead(q, b).kind == Some(ReadKind) && View(AfterRead(q, b)) == Meaning(path, h, [])
  {
    var q := p.(instruction := h[2], kind := Some(ReadKind), targetSpaceWireAddress := path);
    CommandFields(q.(targetLogicalAddress := h[0]), h, b);
  }

  lemma WriteVerdictAccepted(h: seq<byte>, data: seq<byte>, b: seq<byte>)
    requires LegalHeader(h) && KindOf(h[2]).WriteKind? && |data| == LengthField(h)
    requires b == Seal(h) + Seal(data) && Crc(Seal(h)) == 0
    ensures WriteVerdict(b) == Success
  {
    var n := |h| + 1;
    assert b[..n] == Seal(h) && b[n..] == Seal(data) && b[..|h|] == h;
    LengthInPacket(h, b);
    SealedResidue(data);
  }

  /** The length field read from a packet that starts with header `h` is that of `h`. */
  lemma LengthInPacket(h: seq<byte>, b: seq<byte>)
    requires LegalHeader(h) && KindOf(h[2]).WriteKind? && |b| > |h| && b[..|h|] == h
    ensures b[|h| - 11..|h|][8..11] == h[|h| - 3..]
  {
    Slice(b, h, |h| - 11, |h|);
    SubSlice(h, |h| - 11, |h|, 8, 11);
    assert h[|h| - 3..|h|] == h[|h| - 3..];
  }

  lemma WriteAccepted(p: Packet, path: seq<byte>, h: seq<byte>, data: seq<byte>, b: seq<byte>)
    requires LegalHeader(h) && KindOf(h[2]).WriteKind? && |data| == LengthField(h)
    requires b == Seal(h) + Seal(data) && Crc(Seal(h)) == 0
    ensures WriteVerdict(b) == Success
    ensures var q := p.(instruction := h[2], kind := Some(WriteKind), targetSpaceWireAddress := path);
            AfterWrite(q, b).kind == Some(WriteKind) && View(AfterWrite(q, b)) == Meaning(path, h, data)
  {
    var q := p.(instruction := h[2], kind := Some(WriteKind), targetSpaceWireAddress := path);
    WriteRecord(q, h, data, b);
    CommandFields(q.(targetLogicalAddress := h[0]), h, b);
  }

  lemma WriteRecord(q: Packet, h: seq<byte>, data: seq<byte>, b: seq<byte>)
    requires LegalHeader(h) && KindOf(h[2]).WriteKind? && |data| == LengthField(h)
    requires b == Seal(h) + Seal(data) && Crc(Seal(h)) == 0
    ensures WriteVerdict(b) == Success
    ensures |b| > |h| && b[..|h|] == h
    ensures AfterWrite(q, b) == WithCommandFields(q.(targetLogicalAddress := h[0]), b).(data := data)
  {
    WriteVerdictAccepted(h, data, b);
    assert b[|h| + 1..|b| - 1] == data;
  }

  lemma ReadReplyAccepted(p: Packet, path: seq<byte>, h: seq<byte>, data: seq<byte>, b: seq<byte>)
    requires LegalHeader(h) && KindOf(h[2]).ReadReplyKind? && |data| == LengthField(h)
    requires b == Seal(h) + Seal(data) && Crc(Seal(h)) == 0
    ensures ReadReplyVerdict(b) == Success
    ensures var q := p.(instruction := h[2], kind := Some(ReadReplyKind), replyAddress := path);
            AfterReadReply(q, b).kind == Some(ReadReplyKind)
            && View(AfterReadReply(q, b)) == Meaning(path, h, data)
  {
    Slice(b, h, 5, 7);
    Slice(b, h, 8, 11);
    assert b[..12] == Seal(h) && b[12..] == Seal(data) && b[12..|b| - 1] == data;
    SealedResidue(data);
  }

  lemma WriteReplyAccepted(p: Packet, path: seq<byte>, h: seq<byte>, b: seq<byte>)
    requires LegalHeader(h) && KindOf(h[2]).WriteReplyKind?
    requires b == Seal(h) && Crc(b) == 0
    ensures WriteReplyVerdict(b) == Success
    ensures var q := p.(instruction := h[2], kind := Some(WriteReplyKind), replyAddress := path);
            AfterWriteReply(q, b).kind == Some(WriteReplyKind)
            && View(AfterWriteReply(q, b)) == Meaning(path, h, [])
  {
    Slice(b, h, 5, 7);
  }

  /** A packet proper whose two parts leave residue zero is two sealed parts. */
  lemma SplitSealed(b: seq<byte>, n: nat)
    requires n + 2 <= |b| && Crc(b[..n + 1]) == 0 && Crc(b[n + 1..]) == 0
    ensures b == Seal(b[..n]) + Seal(b[n + 1..|b| - 1])
  {
    ResidueSealed(b[..n + 1]);
    assert b[..n + 1][..n] == b[..n];
    ResidueSealed(b[n + 1..]);
    assert b[n + 1..][..|b| - n - 2] == b[n + 1..|b| - 1];
    assert b == b[..n + 1] + b[n + 1..];
  }

  /** Every accepted input has a derivation. */
  lemma AcceptedIsDerived(input: seq<byte>) returns (path: seq<byte>, h: seq<byte>, data: seq<byte>)
    requires Verdict(input) == Success
    ensures Derives(input, path, h, data)
  {
    var k := PathLength(input);
    path := input[..k];
    var b := input[k..];
    assert input == path + b;
    h, data := PartsOf(b);
    Reassociate(path, h, data, b);
  }

  lemma Reassociate(path: seq<byte>, h: seq<byte>, data: seq<byte>, b: seq<byte>)
    ensures b == Seal(h) + Seal(data) ==> path + b == path + Seal(h) + Seal(data)
  {
  }

  lemma PartsOf(b: seq<byte>) returns (h: seq<byte>, data: seq<byte>)
    requires 4 <= |b| && b[0] >= FIRST_LOGICAL_ADDRESS
    requires BodyVerdict(b) == Success
    ensures LegalHeader(h)
    ensures if CarriesData(KindOf(h[2]))
            then |data| == LengthField(h) && b == Seal(h) + Seal(data)
            else data == [] && b == Seal(h)
  {
    SuccessFacts(b);
    var n := HeaderSize(b[2]);
    h := b[..n];
    if CarriesData(KindOf(b[2])) {
      data := b[n + 1..|b| - 1];
      SplitSealed(b, n);
      SubSlice(b, 0, n, n - 3, n);
      assert h[|h| - 3..] == h[n - 3..n];
    } else {
      data := [];
      ResidueSealed(b);
    }
  }

  lemma SuccessFacts(b: seq<byte>)
    requires 4 <= |b| && BodyVerdict(b) == Success
    ensures b[1] == PROTOCOL_ID && HeaderSize(b[2]) < |b|
    ensures var n := HeaderSize(b[2]);
            if CarriesData(KindOf(b[2]))
            then && n + 2 <= |b| == n + 2 + FromBe24(b[n - 3..n])
                 && Crc(b[..n + 1]) == 0 && Crc(b[n + 1..]) == 0
            else |b| == n + 1 && Crc(b) == 0
  {
    var n := HeaderSize(b[2]);
    if KindOf(b[2]).WriteKind? {
      SubSlice(b, n - 11, n, 8, 11);
    }
  }

  /** The accepted language: a parse succeeds exactly on the inputs the grammar derives. */
  lemma AcceptedLanguage(input: seq<byte>)
    ensures Verdict(input) == Success <==> exists path, h, data :: Derives(input, path, h, data)
  {
    if Verdict(input) == Success {
      var path, h, data := AcceptedIsDerived(input);
    }
    forall path, h, data | Derives(input, path, h, data)
      ensures Verdict(input) == Success
    {
      DerivedIsAccepted(input, path, h, data, EMPTY_PACKET);
    }
  }

  // ---------- history independence ----------

  function Replay(p: Packet, inputs: seq<seq<byte>>): Packet {
    if inputs == [] then p else After(Replay(p, inputs[..|inputs| - 1]), inputs[|inputs| - 1])
  }

  /** After any two histories, failed parses included, a successful parse of the same input leaves the same
      fields of the packet's kind: those of the input's one derivation. */
  lemma HistoryIndependence(p: Packet, history: seq<seq<byte>>, q: Packet, other: seq<seq<byte>>,
                            last: seq<byte>)
    requires Verdict(last) == Success
    ensures Replay(p, history + [last]).kind.Some? && Replay(q, other + [last]).kind.Some?
    ensures View(Replay(p, history + [last])) == View(Replay(q, other + [last]))
    ensures exists path, h, data ::
      Derives(last, path, h, data) && View(Replay(p, history + [last])) == Meaning(path, h, data)
  {
    var path, h, data := AcceptedIsDerived(last);
    assert (history + [last])[..|history|] == history && (other + [last])[..|other|] == other;
    DerivedIsAccepted(last, path, h, data, Replay(p, history));
    DerivedIsAccepted(last, path, h, data, Replay(q, other));
  }
}
