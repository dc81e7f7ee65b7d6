/** Which status a parse reports, and what a refused packet leaves in the record: exactly, for every input and all four
    kinds, in terms of the input's shape. */
module Statuses {
  import opened Bytes
  import opened RmapCrc
  import opened CrcErrorDetection
  import opened Packets
  import opened PacketParsing
  import opened PacketLanguage

  /** The packet proper is long enough for its header: exactly as long for the kinds without data, longer for writes. */
  predicate HeaderFits(b: seq<byte>) {
    4 <= |b| &&
    var n := HeaderSize(b[2]);
    match KindOf(b[2])
    case ReadKind => |b| == n + 1
    case WriteKind => |b| > n + 1
    case ReadReplyKind => |b| >= n + 1
    case WriteReplyKind => |b| == n + 1
  }

  /** The byte behind the header is the header's CRC. */
  predicate HeaderSealed(b: seq<byte>)
    requires HeaderFits(b)
  {
    var n := HeaderSize(b[2]);
    b[n] == Crc(b[..n])
  }

  /** The data length that the header announces in its last three bytes. */
  function Announced(b: seq<byte>): nat
    requires HeaderFits(b)
  {
    var n := HeaderSize(b[2]);
    0x1_0000 * b[n - 3] as int + 0x100 * b[n - 2] as int + b[n - 1]
  }

  /** The data part has the announced length, its CRC included; for the kinds without data there is nothing to ask. */
  predicate DataFits(b: seq<byte>)
    requires HeaderFits(b)
  {
    CarriesData(KindOf(b[2])) ==> |b| == HeaderSize(b[2]) + 1 + Announced(b) + 1
  }

  /** The last byte is the CRC of the data. */
  predicate DataSealed(b: seq<byte>)
    requires HeaderFits(b) && DataFits(b)
  {
    CarriesData(KindOf(b[2])) ==> b[|b| - 1] == Crc(b[HeaderSize(b[2]) + 1..|b| - 1])
  }

  /** A sealed part is one whose CRC is zero. */
  lemma ResidueExactly(s: seq<byte>)
    requires s != []
    ensures Crc(s) == 0 <==> s[|s| - 1] == Crc(s[..|s| - 1])
  {
    Residue(s[..|s| - 1], s[|s| - 1], 0);
    assert s == s[..|s| - 1] + [s[|s| - 1]];
  }

  lemma HeaderResidue(b: seq<byte>)
    requires HeaderFits(b)
    ensures Crc(b[..HeaderSize(b[2]) + 1]) == 0 <==> HeaderSealed(b)
  {
    var n := HeaderSize(b[2]);
    ResidueExactly(b[..n + 1]);
    assert b[..n + 1][..n] == b[..n];
  }

  lemma DataResidue(b: seq<byte>)
    requires HeaderFits(b) && DataFits(b) && CarriesData(KindOf(b[2]))
    ensures Crc(b[HeaderSize(b[2]) + 1..]) == 0 <==> DataSealed(b)
  {
    var d := b[HeaderSize(b[2]) + 1..];
    ResidueExactly(d);
    assert d[..|d| - 1] == b[HeaderSize(b[2]) + 1..|b| - 1];
  }

  lemma AnnouncedIs(b: seq<byte>)
    requires HeaderFits(b) && CarriesData(KindOf(b[2]))
    ensures KindOf(b[2]).WriteKind? ==>
      var n := HeaderSize(b[2]) + 1;
      n == 16 + ReplyFieldSize(b[2]) && FromBe24(b[n - 12..n - 1][8..11]) == Announced(b)
    ensures KindOf(b[2]).ReadReplyKind? ==> FromBe24(b[8..11]) == Announced(b)
  {
    var n := HeaderSize(b[2]);
    if KindOf(b[2]).WriteKind? {
      var t := b[n - 11..n][8..11];
      assert t[0] == b[n - 3] && t[1] == b[n - 2] && t[2] == b[n - 1];
      assert t[1..][0] == t[1] && t[1..][1] == t[2];
    } else {
      var t := b[8..11];
      assert t[1..][0] == t[1] && t[1..][1] == t[2];
    }
  }

  /** The status of a packet proper. */
  predicate StatusIs(b: seq<byte>, s: Status) {
    && (s == HeaderCRCError <==> HeaderFits(b) && !HeaderSealed(b))
    && (s == UnknownProtocolIdentifier <==> HeaderFits(b) && HeaderSealed(b) && b[1] != 0x01)
    && (s == DataCRCError <==>
         HeaderFits(b) && HeaderSealed(b) && b[1] == 0x01 && DataFits(b) && !DataSealed(b))
    && (s == Success <==>
         HeaderFits(b) && HeaderSealed(b) && b[1] == 0x01 && DataFits(b) && DataSealed(b))
  }

  lemma BodyStatus(b: seq<byte>)
    requires 4 <= |b|
    ensures StatusIs(b, BodyVerdict(b))
  {
    if HeaderFits(b) {
      HeaderResidue(b);
      if CarriesData(KindOf(b[2])) {
        AnnouncedIs(b);
        if DataFits(b) {
          DataResidue(b);
        }
      } else {
        assert b[..HeaderSize(b[2]) + 1] == b;
      }
    }
  }

  /** On every input, split into its routing bytes (below 0x20) and the rest, which starts at 0x20 or above: the
      header CRC is blamed exactly if the header is complete and its CRC wrong, the protocol identifier exactly if
      that CRC is right and the second byte is not 1, the data CRC exactly if those are right and the data have the
      announced length but a wrong CRC; the parse succeeds exactly if all are right, and everything else is an
      incomplete packet. */
  lemma StatusExactly(input: seq<byte>, path: seq<byte>, b: seq<byte>)
    requires input == path + b && (forall i :: 0 <= i < |path| ==> path[i] < 0x20) && (b == [] || b[0] >= 0x20)
    ensures StatusIs(b, Verdict(input))
  {
    PathLengthOf(path, b);
    assert input[|path|..] == b;
    if 4 <= |b| {
      BodyStatus(b);
    }
  }

  // ---------- damaged data ----------

  /** The bits in which two parts of one length differ are an odd number, or lie within eight consecutive ones. */
  predicate Damaged(p: seq<byte>, q: seq<byte>, start: nat)
    requires |p| == |q|
  {
    || Weight(Flips(p, q)) % 2 == 1
    || (p != q && start + 8 <= 8 * |p| && forall i :: 0 <= i < 8 * |p| && Flips(p, q)[i] ==> start <= i < start + 8)
  }

  /** A packet whose data part, CRC byte included, arrives with an odd number of flipped bits or a burst of them is
      refused with a data CRC error, whatever its length. */
  lemma DamagedData(input: seq<byte>, path: seq<byte>, h: seq<byte>, data: seq<byte>, part: seq<byte>, start: nat)
    requires Derives(input, path, h, data) && CarriesData(KindOf(h[2]))
    requires |part| == |data| + 1 && Damaged(Seal(data), part, start)
    ensures Verdict(path + (Seal(h) + part)) == DataCRCError
  {
    if Weight(Flips(Seal(data), part)) % 2 == 1 {
      OddFlipsChangeCrc(Seal(data), part, 0);
    } else {
      BurstChangesCrc(Seal(data), part, 0, start);
    }
    SealedResidue(data);
    DamagedBody(h, data, part);
    StatusExactly(path + (Seal(h) + part), path, Seal(h) + part);
  }

  lemma DamagedBody(h: seq<byte>, data: seq<byte>, part: seq<byte>)
    requires LegalHeader(h) && CarriesData(KindOf(h[2])) && |data| == LengthField(h)
    requires |part| == |data| + 1 && Crc(part) != 0
    ensures
      var b := Seal(h) + part;
      && HeaderFits(b) && HeaderSealed(b) && b[1] == 0x01 && DataFits(b) && !DataSealed(b)
  {
    var b := Seal(h) + part;
    var n := |h|;
    assert b[..n] == h && b[n] == Crc(h) && b[n + 1..] == part && b[2] == h[2] && b[1] == h[1];
    AnnouncedInHeader(h, b);
    DataResidue(b);
  }

  lemma AnnouncedInHeader(h: seq<byte>, b: seq<byte>)
    requires LegalHeader(h) && CarriesData(KindOf(h[2])) && |b| > |h| + 1 && b[..|h|] == h && b[2] == h[2]
    ensures HeaderFits(b) && Announced(b) == LengthField(h)
  {
    var t := h[|h| - 3..];
    assert t[0] == b[|h| - 3] && t[1] == b[|h| - 2] && t[2] == b[|h| - 1];
    assert t[1..][0] == t[1] && t[1..][1] == t[2];
  }

  // ---------- what a refused packet leaves behind ----------

  /** A packet refused for its size or its header CRC leaves the record as it was but for the instruction, the kind and
      the routing bytes; no refused packet changes the record's data. */
  lemma RefusedLeaves(p: Packet, path: seq<byte>, b: seq<byte>)
    requires 4 <= |b| && BodyVerdict(b) != Success
    ensures AfterBody(p, path, b).data == p.data
    ensures !HeaderFits(b) || !HeaderSealed(b) ==>
      var command := KindOf(b[2]).ReadKind? || KindOf(b[2]).WriteKind?;
      AfterBody(p, path, b) ==
        p.(instruction := b[2], kind := Some(KindOf(b[2])),
           targetSpaceWireAddress := if command then path else p.targetSpaceWireAddress,
           replyAddress := if command then p.replyAddress else path)
  {
    BodyStatus(b);
  }
}
