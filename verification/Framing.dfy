/** The SpaceWire-over-TCP frames of spw_rmap_tcp_node_impl.hh and the pure decoder that says which bytes of a
    stream make up the next packet. */
module Framing {
  import opened Bytes

  datatype Policy = Fixed | AutoResize

  const END_OF_PACKET: byte := 0x00
  const ERROR_END: byte := 0x01
  const PARTIAL: byte := 0x02
  const TIME_CODE: byte := 0x30
  const TIME_CODE_ALT: byte := 0x31

  /** `calculateDataLength`: the last eight of the twelve header bytes. Shorter headers are rejected. */
  function DataLength(header: seq<byte>): Option<uint64> {
    if |header| < 12 then None else Some(FromBe64(header[4..12]))
  }

  /** The header that `send_` writes in front of a packet of `size` bytes. */
  function SendHeader(size: nat): (s: seq<byte>)
    ensures |s| == 12
  {
    [0, 0, 0, 0] + Be64(size)
  }

  /** The length read from a sent header is the size of the packet behind it. */
  lemma SendHeaderLength(size: uint64)
    ensures DataLength(SendHeader(size)) == Some(size)
  {
    assert SendHeader(size)[4..12] == Be64(size);
    FromBe64Be64(size);
  }

  // ---------- decoding a stream ----------

  datatype Outcome =
    | Whole(payload: seq<byte>, rest: seq<byte>, capacity: nat)  // next packet, what follows it, buffer size then
    | Malformed(rest: seq<byte>)                                  // a frame the receiver refuses, what it has not read
    | NoSpace(rest: seq<byte>)                                    // a frame that a fixed buffer cannot take
    | Starved                                                     // the stream ends before the packet does

  predicate KnownType(t: byte) {
    t == END_OF_PACKET || t == ERROR_END || t == PARTIAL || t == TIME_CODE || t == TIME_CODE_ALT
  }

  predicate IsTimeCode(t: byte) {
    t == TIME_CODE || t == TIME_CODE_ALT
  }

  const TIME_CODE_TAIL: seq<byte> := [0, 0, 0, 0, 0, 0, 0, 0, 0, 2]

  /** The header bytes that are checked before the length is looked at. */
  predicate GoodHeader(h: seq<byte>)
    requires |h| == 12
  {
    && KnownType(h[0]) && h[1] == 0
    && FromBe64(h[4..12]) != 0
  }

  /** The buffer size after a frame of n bytes has been announced behind `used` accumulated bytes. */
  function Grown(capacity: nat, used: nat, n: nat): nat {
    if n + used > capacity then used + n else capacity
  }

  /** What one receive call makes of a stream, having accumulated `acc` in a buffer of the given capacity. */
  function Decode(policy: Policy, capacity: nat, s: seq<byte>, acc: seq<byte>): Outcome
    decreases |s|, 1
  {
    if |s| < 12 then Starved
    else
      var h := s[..12];
      if !GoodHeader(h) then Malformed(s[12..])
      else if FromBe64(h[4..12]) + |acc| > capacity && policy.Fixed? then NoSpace(s[12..])
      else Behind(policy, Grown(capacity, |acc|, FromBe64(h[4..12])), h, s[12..], acc)
  }

  /** The same once a good header has been read and the buffer has room: `t` is what follows the header. */
  function Behind(policy: Policy, capacity: nat, h: seq<byte>, t: seq<byte>, acc: seq<byte>): Outcome
    requires |h| == 12 && GoodHeader(h)
    decreases |t|, 0
  {
    var n := FromBe64(h[4..12]);
    if IsTimeCode(h[0]) then
      if h[2..12] != TIME_CODE_TAIL then Malformed(t)
      else if |t| < 2 then Starved
      else if t[1] != 0 then Malformed(t[2..])
      else Decode(policy, capacity, t[2..], acc)
    else if |t| < n then Starved
    else if h[0] == END_OF_PACKET then Whole(acc + t[..n], t[n..], capacity)
    else if h[0] == ERROR_END then Decode(policy, capacity, t[n..], [])
    else Decode(policy, capacity, t[n..], acc + t[..n])
  }

  // ---------- streams of frames ----------

  datatype Frame =
    | Data(kind: byte, extra: uint16, payload: seq<byte>)
    | Time(kind: byte, code: byte)

  predicate Legal(f: Frame) {
    match f
    case Data(k, _, p) => (k == END_OF_PACKET || k == ERROR_END || k == PARTIAL) && 0 < |p| < 0x1_0000_0000_0000_0000
    case Time(k, _) => IsTimeCode(k)
  }

  function HeaderOf(f: Frame): (h: seq<byte>)
    requires Legal(f)
    ensures |h| == 12
  {
    match f
    case Data(k, extra, p) => [k, 0] + Be16(extra) + Be64(|p|)
    case Time(k, code) => [k, 0] + TIME_CODE_TAIL
  }

  function Render(f: Frame): seq<byte>
    requires Legal(f)
  {
    HeaderOf(f) + if f.Data? then f.payload else [f.code, 0]
  }

  predicate AllLegal(fs: seq<Frame>) {
    forall i :: 0 <= i < |fs| ==> Legal(fs[i])
  }

  function RenderAll(fs: seq<Frame>): seq<byte>
    requires AllLegal(fs)
  {
    if fs == [] then [] else Render(fs[0]) + RenderAll(fs[1..])
  }

  predicate Is(f: Frame, kind: byte) {
    f.Data? && f.kind == kind
  }

  function PayloadOf(f: Frame): seq<byte> {
    if f.Data? then f.payload else []
  }

  /** The payloads of a run of frames, in order. */
  function Payloads(fs: seq<Frame>): seq<byte> {
    if fs == [] then [] else PayloadOf(fs[0]) + Payloads(fs[1..])
  }

  /** Frames that end no packet: segments and time codes. */
  predicate Segments(fs: seq<Frame>) {
    forall i :: 0 <= i < |fs| ==> !Is(fs[i], END_OF_PACKET) && !Is(fs[i], ERROR_END)
  }

  /** Any number of aborted packets: no normal end of packet, and nothing after the last abort. */
  predicate Abandoned(fs: seq<Frame>) {
    && (forall i :: 0 <= i < |fs| ==> !Is(fs[i], END_OF_PACKET))
    && (fs == [] || Is(fs[|fs| - 1], ERROR_END))
  }

  lemma LengthTwo(s: seq<byte>)
    requires s == [0, 0, 0, 0, 0, 0, 0, 2]
    ensures FromBe64(s) == 2
  {
    assert s[..4] == [0, 0, 0, 0] && s[4..] == [0, 0, 0, 2];
    assert FromBe32([0, 0, 0, 0]) == 0 && FromBe32([0, 0, 0, 2]) == 2;
  }

  lemma HeaderOfData(f: Frame)
    requires Legal(f)
    ensures var h := HeaderOf(f);
            && GoodHeader(h)
            && FromBe64(h[4..12]) == (if f.Data? then |f.payload| else 2)
            && (f.Time? ==> h[2..12] == TIME_CODE_TAIL)
  {
    var h := HeaderOf(f);
    if f.Data? {
      assert h[4..12] == Be64(|f.payload|);
      FromBe64Be64(|f.payload|);
    } else {
      assert h[2..12] == TIME_CODE_TAIL;
      LengthTwo(h[4..12]);
    }
  }

  /** What is left to decode behind a frame. */
  function DecodeRest(f: Frame, rest: seq<byte>, acc: seq<byte>, capacity: nat): Outcome {
    match f
    case Time(_, _) => Decode(AutoResize, capacity, rest, acc)
    case Data(k, _, p) =>
      if k == END_OF_PACKET then Whole(acc + p, rest, capacity)
      else if k == ERROR_END then Decode(AutoResize, capacity, rest, [])
      else Decode(AutoResize, capacity, rest, acc + p)
  }

  /** One step of the decoder on a rendered frame, under AutoResize. */
  lemma DecodeFrame(capacity: nat, f: Frame, rest: seq<byte>, acc: seq<byte>) returns (capacity': nat)
    requires Legal(f)
    ensures Decode(AutoResize, capacity, Render(f) + rest, acc) == DecodeRest(f, rest, acc, capacity')
  {
    HeaderOfData(f);
    var h := HeaderOf(f);
    var s := Render(f) + rest;
    var n := FromBe64(h[4..12]);
    capacity' := Grown(capacity, |acc|, n);
    var t := s[12..];
    assert s[..12] == h;
    if f.Data? {
      assert t[..n] == f.payload && t[n..] == rest;
    } else {
      assert t[2..] == rest && t[1] == 0;
    }
  }

  lemma DecodeSegment(capacity: nat, f: Frame, rest: seq<byte>, acc: seq<byte>) returns (capacity': nat)
    requires Legal(f) && !Is(f, END_OF_PACKET) && !Is(f, ERROR_END)
    ensures Decode(AutoResize, capacity, Render(f) + rest, acc)
      == Decode(AutoResize, capacity', rest, acc + PayloadOf(f))
  {
    capacity' := DecodeFrame(capacity, f, rest, acc);
    assert acc + [] == acc;
  }

  lemma {:induction false} DecodeSegments(capacity: nat, fs: seq<Frame>, rest: seq<byte>, acc: seq<byte>)
    returns (capacity': nat)
    requires AllLegal(fs) && Segments(fs)
    ensures Decode(AutoResize, capacity, RenderAll(fs) + rest, acc)
      == Decode(AutoResize, capacity', rest, acc + Payloads(fs))
    decreases |fs|
  {
    if fs == [] {
      capacity' := capacity;
      assert RenderAll(fs) + rest == rest && acc + Payloads(fs) == acc;
    } else {
      var rest' := RenderAll(fs[1..]) + rest;
      Assoc(Render(fs[0]), RenderAll(fs[1..]), rest);
      var middle := DecodeSegment(capacity, fs[0], rest', acc);
      var acc' := acc + PayloadOf(fs[0]);
      capacity' := DecodeSegments(middle, fs[1..], rest, acc');
      Assoc(acc, PayloadOf(fs[0]), Payloads(fs[1..]));
    }
  }

  lemma {:induction false} DecodeAbandoned(capacity: nat, fs: seq<Frame>, rest: seq<byte>, acc: seq<byte>)
    returns (capacity': nat)
    requires AllLegal(fs) && Abandoned(fs) && fs != []
    ensures Decode(AutoResize, capacity, RenderAll(fs) + rest, acc) == Decode(AutoResize, capacity', rest, [])
    decreases |fs|
  {
    var rest' := RenderAll(fs[1..]) + rest;
    assert RenderAll(fs) + rest == Render(fs[0]) + rest';
    capacity' := DecodeFrame(capacity, fs[0], rest', acc);
    if |fs| == 1 {
      assert rest' == rest;
    } else {
      var acc' := if fs[0].Time? then acc else if fs[0].kind == ERROR_END then [] else acc + fs[0].payload;
      capacity' := DecodeAbandoned(capacity', fs[1..], rest, acc');
    }
  }

  /** Under AutoResize, for every stream made of abandoned packets, then segments with time codes anywhere between
      them, then an end-of-packet frame, the next packet is exactly the payloads of that last group, and
      exactly those frames are consumed. */
  lemma NextPacket(capacity: nat, abandoned: seq<Frame>, group: seq<Frame>, last: Frame, rest: seq<byte>)
    requires AllLegal(abandoned) && AllLegal(group) && Legal(last)
    requires Abandoned(abandoned) && Segments(group) && Is(last, END_OF_PACKET)
    ensures var stream := RenderAll(abandoned) + (RenderAll(group) + (Render(last) + rest));
            var out := Decode(AutoResize, capacity, stream, []);
            out.Whole? && out.payload == Payloads(group) + last.payload && out.rest == rest
  {
    var tail := RenderAll(group) + (Render(last) + rest);
    var capacity' := capacity;
    if abandoned == [] {
      assert RenderAll(abandoned) + tail == tail;
    } else {
      capacity' := DecodeAbandoned(capacity, abandoned, tail, []);
    }
    capacity' := DecodeSegments(capacity', group, Render(last) + rest, []);
    assert [] + Payloads(group) == Payloads(group);
    capacity' := DecodeFrame(capacity', last, rest, Payloads(group));
  }

  /** What is decoded and what is left does not depend on the buffer's size when it may grow, and the buffer
      never shrinks. */
  lemma {:induction false} CapacityIrrelevant(c: nat, d: nat, s: seq<byte>, acc: seq<byte>)
    ensures var x, y := Decode(AutoResize, c, s, acc), Decode(AutoResize, d, s, acc);
            && (x.Whole? <==> y.Whole?) && (x.Malformed? <==> y.Malformed?) && !x.NoSpace?
            && (x.Whole? ==> x.payload == y.payload && x.rest == y.rest && x.capacity >= c)
            && (x.Malformed? ==> x.rest == y.rest)
    decreases |s|
  {
    if 12 <= |s| && GoodHeader(s[..12]) {
      var h, t := s[..12], s[12..];
      var n := FromBe64(h[4..12]);
      var c', d' := Grown(c, |acc|, n), Grown(d, |acc|, n);
      if IsTimeCode(h[0]) {
        if 2 <= |t| {
          CapacityIrrelevant(c', d', t[2..], acc);
        }
      } else if n <= |t| {
        CapacityIrrelevant(c', d', t[n..], if h[0] == ERROR_END then [] else acc + t[..n]);
      }
    }
  }
}
