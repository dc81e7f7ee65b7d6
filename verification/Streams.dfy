/** What the decoder makes of a stream of frames under either buffer policy, frame by frame and in numbers: which
    bytes are handed on, how large the buffer becomes, and which frames are refused and where reading stops then. */
module Streams {
  import opened Bytes
  import opened Framing

  /** The length a frame announces. */
  function Size(f: Frame): nat {
    if f.Data? then |f.payload| else 2
  }

  /** The bytes accumulated after these frames: the payloads since the last aborted packet. */
  function Kept(fs: seq<Frame>): seq<byte> {
    if fs == [] then []
    else
      var f := fs[|fs| - 1];
      if Is(f, ERROR_END) then [] else Kept(fs[..|fs| - 1]) + PayloadOf(f)
  }

  /** The frames do not end a packet. */
  predicate Unfinished(fs: seq<Frame>) {
    forall i :: 0 <= i < |fs| ==> !Is(fs[i], END_OF_PACKET)
  }

  /** The room that the i-th frame needs: behind the bytes accumulated before it. */
  function Need(fs: seq<Frame>, i: nat): nat
    requires i < |fs|
  {
    |Kept(fs[..i])| + Size(fs[i])
  }

  predicate Roomy(fs: seq<Frame>, capacity: nat) {
    forall i :: 0 <= i < |fs| ==> Need(fs, i) <= capacity
  }

  /** The size of a buffer that grows just enough for every frame. */
  function Peak(capacity: nat, fs: seq<Frame>): nat {
    if fs == [] then capacity
    else
      var before, needed := Peak(capacity, fs[..|fs| - 1]), Need(fs, |fs| - 1);
      if needed > before then needed else before
  }

  lemma NeedOfFront(fs: seq<Frame>, n: nat, i: nat)
    requires i < n <= |fs|
    ensures Need(fs[..n], i) == Need(fs, i)
  {
    assert fs[..n][..i] == fs[..i];
  }

  lemma RoomyFront(fs: seq<Frame>, n: nat, capacity: nat)
    requires n <= |fs| && Roomy(fs, capacity)
    ensures Roomy(fs[..n], capacity)
  {
    forall i | 0 <= i < n
      ensures Need(fs[..n], i) <= capacity
    {
      NeedOfFront(fs, n, i);
    }
  }

  /** The buffer grows far enough for all frames, and no further than some frame needs. */
  lemma {:induction false} PeakExactly(capacity: nat, fs: seq<Frame>)
    ensures capacity <= Peak(capacity, fs) && Roomy(fs, Peak(capacity, fs))
    ensures Peak(capacity, fs) == capacity || exists i :: 0 <= i < |fs| && Peak(capacity, fs) == Need(fs, i)
    decreases |fs|
  {
    if fs != [] {
      var n := |fs| - 1;
      PeakExactly(capacity, fs[..n]);
      forall i | 0 <= i < n
        ensures Need(fs, i) == Need(fs[..n], i)
      {
        NeedOfFront(fs, n, i);
      }
    }
  }

  lemma PeakWhenRoomy(capacity: nat, fs: seq<Frame>)
    requires Roomy(fs, capacity)
    ensures Peak(capacity, fs) == capacity
  {
    PeakExactly(capacity, fs);
  }

  lemma KeptSegment(fs: seq<Frame>, f: Frame)
    requires Unfinished(fs) && !Is(f, END_OF_PACKET) && !Is(f, ERROR_END)
    ensures Unfinished(fs + [f]) && Kept(fs + [f]) == Kept(fs) + PayloadOf(f)
  {
    assert (fs + [f])[..|fs|] == fs;
  }

  lemma {:induction false} KeptSegments(fs: seq<Frame>, group: seq<Frame>)
    requires Unfinished(fs) && Segments(group)
    ensures Unfinished(fs + group) && Kept(fs + group) == Kept(fs) + Payloads(group)
    decreases |group|
  {
    if group == [] {
      assert fs + group == fs && Kept(fs) + [] == Kept(fs);
    } else {
      var f, tail := group[0], group[1..];
      KeptSegment(fs, f);
      KeptSegments(fs + [f], tail);
      Regroup(fs, group);
      var a, b, c := Kept(fs), PayloadOf(f), Payloads(tail);
      Assoc(a, b, c);
    }
  }

  lemma Regroup<T>(a: seq<T>, b: seq<T>)
    requires b != []
    ensures (a + [b[0]]) + b[1..] == a + b
  {
  }

  /** After abandoned packets and the segments of a group, the payloads of the group are what has been kept. */
  lemma KeptGroup(abandoned: seq<Frame>, group: seq<Frame>)
    requires Abandoned(abandoned) && Segments(group)
    ensures Unfinished(abandoned + group) && Kept(abandoned + group) == Payloads(group)
  {
    assert Kept(abandoned) == [] && [] + Payloads(group) == Payloads(group);
    KeptSegments(abandoned, group);
  }

  lemma {:induction false} RenderAllAppend(fs: seq<Frame>, f: Frame)
    requires AllLegal(fs) && Legal(f)
    ensures AllLegal(fs + [f]) && RenderAll(fs + [f]) == RenderAll(fs) + Render(f)
    decreases |fs|
  {
    var more := fs + [f];
    if fs == [] {
      assert more == [f] && more[1..] == [];
      assert Render(f) + [] == [] + Render(f);
    } else {
      RenderAllAppend(fs[1..], f);
      assert more[1..] == fs[1..] + [f];
      Assoc(Render(fs[0]), RenderAll(fs[1..]), Render(f));
    }
  }

  // ---------- one frame ----------

  /** A frame that has room, or for which room may be made. */
  lemma FrameTaken(policy: Policy, capacity: nat, f: Frame, rest: seq<byte>, acc: seq<byte>)
    requires Legal(f) && (policy.AutoResize? || |acc| + Size(f) <= capacity)
    ensures
      var c := Grown(capacity, |acc|, Size(f));
      Decode(policy, capacity, Render(f) + rest, acc) ==
        if Is(f, END_OF_PACKET) then Whole(acc + f.payload, rest, c)
        else Decode(policy, c, rest, if Is(f, ERROR_END) then [] else acc + PayloadOf(f))
  {
    HeaderOfData(f);
    var h, s := HeaderOf(f), Render(f) + rest;
    var t := s[12..];
    assert s[..12] == h;
    if f.Data? {
      assert t[..|f.payload|] == f.payload && t[|f.payload|..] == rest;
    } else {
      assert t[2..] == rest && t[1] == 0 && acc + [] == acc;
    }
  }

  /** A header that announces more than a fixed buffer has room for is refused there, whatever follows. */
  lemma FrameRefused(capacity: nat, h: seq<byte>, rest: seq<byte>, acc: seq<byte>)
    requires |h| == 12 && !BadHeader(h) && |acc| + FromBe64(h[4..12]) > capacity
    ensures Decode(Fixed, capacity, h + rest, acc) == NoSpace(rest)
  {
    GoodExactly(h);
    assert (h + rest)[..12] == h && (h + rest)[12..] == rest;
  }

  // ---------- any number of frames ----------

  /** Decoding goes on behind frames that do not end a packet. */
  lemma {:induction false} Decoded(policy: Policy, capacity: nat, fs: seq<Frame>, tail: seq<byte>)
    requires AllLegal(fs) && Unfinished(fs) && (policy.AutoResize? || Roomy(fs, capacity))
    ensures Decode(policy, capacity, RenderAll(fs) + tail, [])
      == Decode(policy, Peak(capacity, fs), tail, Kept(fs))
    decreases |fs|
  {
    if fs == [] {
      assert RenderAll(fs) + tail == tail;
    } else {
      var n := |fs| - 1;
      if policy.Fixed? {
        RoomyFront(fs, n, capacity);
      }
      DecodedFront(fs, tail);
      Decoded(policy, capacity, fs[..n], Render(fs[n]) + tail);
      DecodedLast(policy, capacity, fs, tail);
    }
  }

  lemma DecodedLast(policy: Policy, capacity: nat, fs: seq<Frame>, tail: seq<byte>)
    requires AllLegal(fs) && Unfinished(fs) && (policy.AutoResize? || Roomy(fs, capacity)) && fs != []
    ensures
      var n := |fs| - 1;
      Decode(policy, Peak(capacity, fs[..n]), Render(fs[n]) + tail, Kept(fs[..n]))
      == Decode(policy, Peak(capacity, fs), tail, Kept(fs))
  {
    var n := |fs| - 1;
    if policy.Fixed? {
      RoomyFront(fs, n, capacity);
      PeakWhenRoomy(capacity, fs[..n]);
      assert Need(fs, n) <= capacity;
    }
    FrameTaken(policy, Peak(capacity, fs[..n]), fs[n], tail, Kept(fs[..n]));
  }

  lemma DecodedFront(fs: seq<Frame>, tail: seq<byte>)
    requires AllLegal(fs) && fs != []
    ensures RenderAll(fs) + tail == RenderAll(fs[..|fs| - 1]) + (Render(fs[|fs| - 1]) + tail)
  {
    LastRendered(fs);
    var a, b := RenderAll(fs[..|fs| - 1]), Render(fs[|fs| - 1]);
    Assoc(a, b, tail);
  }

  lemma LastRendered(fs: seq<Frame>)
    requires AllLegal(fs) && fs != []
    ensures RenderAll(fs) == RenderAll(fs[..|fs| - 1]) + Render(fs[|fs| - 1])
  {
    FrontAndLast(fs);
    RenderAllAppend(fs[..|fs| - 1], fs[|fs| - 1]);
  }

  lemma FrontAndLast<T>(s: seq<T>)
    requires s != []
    ensures s == s[..|s| - 1] + [s[|s| - 1]]
  {
  }

  /** Under either policy: if every frame up to and including the end frame has room behind the bytes accumulated
      before it, or the buffer may grow, the packet is what has been kept followed by the last payload, exactly those
      frames are consumed, and the buffer has grown just as far as they need (not at all when they have room). */
  lemma PacketTaken(policy: Policy, capacity: nat, fs: seq<Frame>, last: Frame, rest: seq<byte>)
    requires AllLegal(fs) && Unfinished(fs) && Legal(last) && Is(last, END_OF_PACKET)
    requires policy.AutoResize? || Roomy(fs + [last], capacity)
    ensures Decode(policy, capacity, RenderAll(fs) + (Render(last) + rest), [])
      == Whole(Kept(fs) + last.payload, rest, Peak(capacity, fs + [last]))
    ensures Roomy(fs + [last], capacity) ==> Peak(capacity, fs + [last]) == capacity
  {
    var all := fs + [last];
    assert all[..|fs|] == fs && all[|fs|] == last;
    if Roomy(all, capacity) {
      RoomyFront(all, |fs|, capacity);
      PeakWhenRoomy(capacity, all);
      PeakWhenRoomy(capacity, fs);
      assert Need(all, |fs|) <= capacity;
    }
    PeakOfLast(capacity, fs, last);
    Decoded(policy, capacity, fs, Render(last) + rest);
    FrameTaken(policy, Peak(capacity, fs), last, rest, Kept(fs));
  }

  lemma PeakOfLast(capacity: nat, fs: seq<Frame>, last: Frame)
    ensures Peak(capacity, fs + [last]) == Grown(Peak(capacity, fs), |Kept(fs)|, Size(last))
  {
    assert (fs + [last])[..|fs|] == fs;
  }

  /** Under the fixed policy the first header that announces more than there is room for is refused. */
  lemma HeaderTooLong(capacity: nat, fs: seq<Frame>, h: seq<byte>, rest: seq<byte>)
    requires AllLegal(fs) && Unfinished(fs) && Roomy(fs, capacity)
    requires |h| == 12 && !BadHeader(h) && |Kept(fs)| + FromBe64(h[4..12]) > capacity
    ensures Decode(Fixed, capacity, RenderAll(fs) + (h + rest), []) == NoSpace(rest)
  {
    Decoded(Fixed, capacity, fs, h + rest);
    PeakWhenRoomy(capacity, fs);
    FrameRefused(capacity, h, rest, Kept(fs));
  }

  /** So the first frame that has no room is refused at its header. */
  lemma PacketRefused(capacity: nat, fs: seq<Frame>, f: Frame, rest: seq<byte>)
    requires AllLegal(fs) && Unfinished(fs) && Roomy(fs, capacity)
    requires Legal(f) && |Kept(fs)| + Size(f) > capacity
    ensures Decode(Fixed, capacity, RenderAll(fs) + (HeaderOf(f) + rest), []) == NoSpace(rest)
  {
    HeaderOfData(f);
    GoodExactly(HeaderOf(f));
    HeaderTooLong(capacity, fs, HeaderOf(f), rest);
  }

  // ---------- frames that are no frames ----------

  /** Twelve bytes that begin no frame: the type is not 0, 1, 2, 0x30 or 0x31, the second byte is not zero, or the
      length is zero. */
  predicate BadHeader(h: seq<byte>)
    requires |h| == 12
  {
    h[0] !in [0x00, 0x01, 0x02, 0x30, 0x31] || h[1] != 0x00 || h[4..12] == [0, 0, 0, 0, 0, 0, 0, 0]
  }

  lemma ZeroLength(s: seq<byte>)
    requires |s| == 8
    ensures FromBe64(s) == 0 <==> s == [0, 0, 0, 0, 0, 0, 0, 0]
  {
    var z: seq<byte> := [0, 0, 0, 0, 0, 0, 0, 0];
    assert FromBe32([0, 0, 0, 0]) == 0;
    assert z[..4] == [0, 0, 0, 0] && z[4..] == [0, 0, 0, 0];
    if FromBe64(s) == 0 {
      ZeroWord(s[..4]);
      ZeroWord(s[4..]);
      assert s == s[..4] + s[4..];
    }
  }

  lemma ZeroWord(s: seq<byte>)
    requires |s| == 4 && FromBe32(s) == 0
    ensures s == [0, 0, 0, 0]
  {
  }

  lemma GoodExactly(h: seq<byte>)
    requires |h| == 12
    ensures GoodHeader(h) <==> !BadHeader(h)
  {
    ZeroLength(h[4..12]);
  }

  /** A bad header is refused, under either policy, with only its twelve bytes read. */
  lemma HeaderRefused(policy: Policy, capacity: nat, fs: seq<Frame>, h: seq<byte>, rest: seq<byte>)
    requires AllLegal(fs) && Unfinished(fs) && (policy.AutoResize? || Roomy(fs, capacity))
    requires |h| == 12 && BadHeader(h)
    ensures Decode(policy, capacity, RenderAll(fs) + (h + rest), []) == Malformed(rest)
  {
    Decoded(policy, capacity, fs, h + rest);
    GoodExactly(h);
    assert (h + rest)[..12] == h && (h + rest)[12..] == rest;
  }

  /** A time code whose header goes on otherwise than with nine zeros and a two is refused there, and one whose second
      data byte is not zero behind its two data bytes; a fixed buffer must have room for what it announces. */
  lemma TimeCodeRefused(policy: Policy, capacity: nat, fs: seq<Frame>, h: seq<byte>, rest: seq<byte>)
    requires AllLegal(fs) && Unfinished(fs)
    requires |h| == 12 && !BadHeader(h) && (h[0] == 0x30 || h[0] == 0x31)
    requires policy.AutoResize? || (Roomy(fs, capacity) && |Kept(fs)| + FromBe64(h[4..12]) <= capacity)
    ensures h[2..12] != [0, 0, 0, 0, 0, 0, 0, 0, 0, 2] ==>
      Decode(policy, capacity, RenderAll(fs) + (h + rest), []) == Malformed(rest)
    ensures h[2..12] == [0, 0, 0, 0, 0, 0, 0, 0, 0, 2] && |rest| >= 2 && rest[1] != 0 ==>
      Decode(policy, capacity, RenderAll(fs) + (h + rest), []) == Malformed(rest[2..])
  {
    Decoded(policy, capacity, fs, h + rest);
    if policy.Fixed? {
      PeakWhenRoomy(capacity, fs);
    }
    GoodExactly(h);
    assert (h + rest)[..12] == h && (h + rest)[12..] == rest;
  }

  /** A stream that ends inside a header or inside the bytes a header announces starves. */
  lemma StreamStarves(policy: Policy, capacity: nat, fs: seq<Frame>, f: Frame, part: seq<byte>)
    requires AllLegal(fs) && Unfinished(fs) && Legal(f) && (policy.AutoResize? || Roomy(fs + [f], capacity))
    requires part < Render(f)
    ensures Decode(policy, capacity, RenderAll(fs) + part, []) == Starved
  {
    var all := fs + [f];
    assert all[..|fs|] == fs && all[|fs|] == f;
    if policy.Fixed? {
      RoomyFront(all, |fs|, capacity);
      PeakWhenRoomy(capacity, fs);
      assert Need(all, |fs|) <= capacity;
    }
    Decoded(policy, capacity, fs, part);
    HeaderOfData(f);
    if |part| >= 12 {
      assert part[..12] == Render(f)[..12] == HeaderOf(f);
    }
  }

  // ---------- the frames in numbers ----------

  /** The bytes of a frame: type, zero, two bytes of no account, the length as eight bytes, the payload; and those of a
      time code. */
  lemma FrameBytes(f: Frame)
    requires Legal(f)
    ensures f.Data? ==>
      var s := Render(f);
      && f.kind in [0x00, 0x01, 0x02] && |s| == 12 + |f.payload| && s[0] == f.kind && s[1] == 0
      && s[12..] == f.payload && FromBe64(s[4..12]) == |f.payload|
    ensures f.Time? ==>
      f.kind in [0x30, 0x31] && Render(f) == [f.kind, 0, 0, 0, 0, 0, 0, 0, 0, 0, 0, 2, f.code, 0]
  {
    HeaderOfData(f);
    assert Render(f)[4..12] == HeaderOf(f)[4..12];
    if f.Time? {
      assert f.kind == 0x30 || f.kind == 0x31;
    }
  }

  /** Only type 0 ends a packet, only type 1 aborts one. */
  lemma FrameTypes(f: Frame)
    ensures Is(f, END_OF_PACKET) <==> f.Data? && f.kind == 0x00
    ensures Is(f, ERROR_END) <==> f.Data? && f.kind == 0x01
    ensures Legal(f) && f.Data? && f.kind != 0x00 && f.kind != 0x01 ==> f.kind == 0x02
  {
  }
}
