/** The send path: commands and replies are built behind a twelve-byte header in the send buffer and handed to the
    backend as one frame. */
module Sending {
  import opened Bytes
  import opened Packets
  import opened PacketBuilding
  import opened Framing
  import opened Transport

  /** A target node: its logical address, the path to it and the path back. */
  datatype Target = Target(logical: byte, path: seq<byte>, reply: seq<byte>)

  /** The command that `sendReadPacket_` builds. */
  function ReadCommandFor(t: Target, initiator: byte, tid: uint16, address: uint32, length: uint32): Config {
    Read(t.path, t.reply, t.logical, initiator, tid, 0, address, length, 0, true)
  }

  /** The command that `sendWritePacket_` builds. */
  function WriteCommandFor(t: Target, initiator: byte, tid: uint16, address: uint32, data: seq<byte>,
                           verify: bool): Config {
    Write(t.path, t.reply, t.logical, initiator, tid, 0, 0, address, true, true, verify, data)
  }

  /** What a user asks of a target: to write these data, or to read so many bytes. */
  datatype Request =
    | WriteRequest(target: Target, address: uint32, data: seq<byte>)
    | ReadRequest(target: Target, address: uint32, length: uint32)

  function CommandFor(request: Request, initiator: byte, verify: bool, tid: uint16): Config {
    match request
    case WriteRequest(t, address, data) => WriteCommandFor(t, initiator, tid, address, data, verify)
    case ReadRequest(t, address, length) => ReadCommandFor(t, initiator, tid, address, length)
  }

  /** What has been sent grows from `sent` to `sent'` by exactly the command for the request under the given ID. */
  predicate CommandGoesOut(sent: seq<byte>, sent': seq<byte>, request: Request, initiator: byte, verify: bool, tid: int)
  {
    && 0 <= tid < 0x1_0000 && |request.target.reply| <= 12
    && sent' == sent + Framed(CommandFor(request, initiator, verify, tid))
  }

  /** The send side before a send: the buffer and whether it may grow, and whether the backend will take the bytes. */
  datatype Outlet = Outlet(policy: Policy, buffer: nat, accepts: bool)

  /** How a send ends: it fails for want of buffer space, or in the backend, or goes through. */
  predicate Ends(r: Result<(), Errc>, enough: bool, accepts: bool) {
    r == if !enough then Err(Errc.NoBufferSpace) else if !accepts then Err(IoError) else Ok(())
  }

  /** The bytes of the command packet for a request. */
  function CommandSize(request: Request): nat {
    var t := request.target;
    |t.path| + 16 + (|t.reply| + 3) / 4 * 4 + if request.WriteRequest? then |request.data| + 1 else 0
  }

  lemma CommandSizeExact(request: Request, initiator: byte, verify: bool, tid: uint16)
    requires |request.target.reply| <= 12
    ensures TotalSize(CommandFor(request, initiator, verify, tid)) == CommandSize(request)
  {
  }

  /** There is room for the command and its frame header: reads never grow the buffer far enough. */
  predicate Enough(o: Outlet, request: Request) {
    CommandSize(request) + 12 <= o.buffer || (request.WriteRequest? && o.policy.AutoResize?)
  }

  /** A frame for the packet fits the send buffer, or the buffer may be made to fit it. */
  predicate Fits(policy: Policy, buffer: nat, c: Config) {
    policy.AutoResize? || TotalSize(c) + 12 <= buffer
  }

  /** The size of the send buffer once `size` bytes have been asked of it: it never shrinks, and a fixed one never
      grows. */
  function Stretched(policy: Policy, buffer: nat, size: nat): nat {
    if policy.AutoResize? && size > buffer then size else buffer
  }

  /** A read that runs out of buffer space has grown the buffer in vain: it runs out again when it is tried again. */
  lemma ReadFailsAgain(o: Outlet, request: Request)
    requires request.ReadRequest? && !Enough(o, request)
    ensures !Enough(o.(buffer := Stretched(o.policy, o.buffer, CommandSize(request) + 1)), request)
  {
  }

  /** The bytes of one packet on the wire. */
  function Framed(c: Config): seq<byte>
    requires Buildable(c)
  {
    SendHeader(TotalSize(c)) + Encode(c)
  }

  /** What must fit is the whole frame. */
  lemma FitsExactly(policy: Policy, buffer: nat, c: Config)
    requires Buildable(c)
    ensures Fits(policy, buffer, c) <==> policy.AutoResize? || |Framed(c)| <= buffer
  {
    TotalSizeExact(c);
  }

  /** A sent packet is one end-of-packet frame. */
  lemma FramedIsFrame(c: Config)
    requires Buildable(c) && TotalSize(c) < 0x1_0000_0000_0000_0000
    ensures Legal(Data(END_OF_PACKET, 0, Encode(c)))
    ensures Framed(c) == Render(Data(END_OF_PACKET, 0, Encode(c)))
  {
    TotalSizeExact(c);
    assert Be16(0) == [0, 0];
    assert HeaderOf(Data(END_OF_PACKET, 0, Encode(c))) == SendHeader(TotalSize(c));
  }

  class Sender {
    const backend: Backend
    const policy: Policy
    const initiator: byte
    const verifyMode: bool
    var sendBuf: array<byte>

    constructor (backend: Backend, policy: Policy, initiator: byte, verifyMode: bool, size: nat)
      ensures this.backend == backend && this.policy == policy
      ensures this.initiator == initiator && this.verifyMode == verifyMode
      ensures fresh(sendBuf) && sendBuf.Length == size
    {
      this.backend := backend;
      this.policy := policy;
      this.initiator := initiator;
      this.verifyMode := verifyMode;
      sendBuf := new byte[size](_ => 0);
    }

    function Out(): Outlet
      reads this, backend
    {
      Outlet(policy, sendBuf.Length, backend.accepts)
    }

    /** `send_buf_.resize(size)`: a block of the new size that keeps the contents that fit. */
    method Resize(size: nat)
      modifies `sendBuf
      ensures fresh(sendBuf) && sendBuf.Length == size
      ensures forall i :: 0 <= i < size && i < old(sendBuf.Length) ==> sendBuf[i] == old(sendBuf[i])
    {
      var contents := sendBuf[..];
      sendBuf := new byte[size](i => if 0 <= i < |contents| then contents[i] else 0);
    }

    /** `send_`: writes the frame header in front of the packet already in the buffer and sends both. */
    method Send(size: nat) returns (r: Result<(), Errc>)
      requires size + 12 <= sendBuf.Length
      modifies sendBuf, backend`sent
      ensures r == if backend.accepts then Ok(()) else Err(IoError)
      ensures r.Ok? ==> backend.sent == old(backend.sent) + (SendHeader(size) + old(sendBuf[12..12 + size]))
      ensures r.Err? ==> backend.sent == old(backend.sent)
    {
      ghost var packet := sendBuf[12..12 + size];
      var next := PutAll(sendBuf, 0, 0, SendHeader(size));
      assert sendBuf[0..12] == SendHeader(size);
      assert sendBuf[12..12 + size] == packet;
      assert sendBuf[..size + 12] == sendBuf[0..12] + sendBuf[12..12 + size];
      r := backend.SendAll(sendBuf[..size + 12]);
    }

    /** Builds a packet behind the header space and sends it: the common end of all send operations. */
    method BuildAndSend(c: Config) returns (r: Result<(), Errc>)
      requires Buildable(c) && 12 <= sendBuf.Length
      modifies sendBuf, backend`sent
      ensures Ends(r, TotalSize(c) + 12 <= sendBuf.Length, backend.accepts)
      ensures backend.sent == if r.Ok? then old(backend.sent) + Framed(c) else old(backend.sent)
    {
      var built := Build(c, sendBuf, 12);
      if built.Err? {
        return Err(Errc.NoBufferSpace);
      }
      r := Send(TotalSize(c));
    }

    /** `sendWritePacket_`: under AutoResize never out of buffer space; under Fixed exactly when the frame is larger
        than the buffer. Nothing but the one frame is ever sent. */
    method SendWritePacket(t: Target, tid: uint16, address: uint32, data: seq<byte>) returns (r: Result<(), Errc>)
      requires |t.reply| <= 12
      modifies `sendBuf, sendBuf, backend`sent
      ensures sendBuf == old(sendBuf) || (fresh(sendBuf) && policy.AutoResize?)
      ensures var c := WriteCommandFor(t, initiator, tid, address, data, verifyMode);
              && Ends(r, policy.AutoResize? || TotalSize(c) + 12 <= old(sendBuf.Length), backend.accepts)
              && backend.sent == (if r.Ok? then old(backend.sent) + Framed(c) else old(backend.sent))
              && sendBuf.Length == Stretched(policy, old(sendBuf.Length), TotalSize(c) + 12)
    {
      var expected := |t.path| + (|t.reply| + 3) / 4 * 4 + 4 + 12 + 1 + |data|;
      if expected + 12 > sendBuf.Length {
        if policy.Fixed? {
          return Err(Errc.NoBufferSpace);
        }
        Resize(expected + 12);
      }
      r := BuildAndSend(WriteCommandFor(t, initiator, tid, address, data, verifyMode));
    }

    /** `sendReadPacket_`: its size estimate leaves out the frame header, so the buffer is never grown far enough and,
        under either policy, the call runs out of buffer space exactly when the buffer it starts with is smaller
        than the frame. */
    method SendReadPacket(t: Target, tid: uint16, address: uint32, length: uint32) returns (r: Result<(), Errc>)
      requires |t.reply| <= 12
      modifies `sendBuf, sendBuf, backend`sent
      ensures sendBuf == old(sendBuf) || (fresh(sendBuf) && policy.AutoResize?)
      ensures var c := ReadCommandFor(t, initiator, tid, address, length);
              && Ends(r, TotalSize(c) + 12 <= old(sendBuf.Length), backend.accepts)
              && backend.sent == (if r.Ok? then old(backend.sent) + Framed(c) else old(backend.sent))
              && sendBuf.Length == Stretched(policy, old(sendBuf.Length), TotalSize(c) + 1)
    {
      var expected := |t.path| + (|t.reply| + 3) / 4 * 4 + 4 + 12 + 1;
      if expected > sendBuf.Length {
        if policy.Fixed? {
          return Err(Errc.NoBufferSpace);
        }
        Resize(expected);
      }
      // The source re-checks the buffer after a successful build; the build's own check makes that dead code.
      r := BuildAndSend(ReadCommandFor(t, initiator, tid, address, length));
    }

    /** Sends the command for a request. */
    method SendCommand(request: Request, tid: uint16) returns (r: Result<(), Errc>)
      requires |request.target.reply| <= 12
      modifies `sendBuf, sendBuf, backend`sent
      ensures sendBuf == old(sendBuf) || (fresh(sendBuf) && policy.AutoResize?)
      ensures r.Ok? ==> CommandGoesOut(old(backend.sent), backend.sent, request, initiator, verifyMode, tid)
      ensures r.Err? ==> backend.sent == old(backend.sent)
      ensures Ends(r, Enough(old(Out()), request), backend.accepts)
      ensures sendBuf.Length == Stretched(policy, old(sendBuf.Length),
                                          CommandSize(request) + if request.ReadRequest? then 1 else 12)
    {
      match request
      case WriteRequest(t, address, data) => r := SendWritePacket(t, tid, address, data);
      case ReadRequest(t, address, length) => r := SendReadPacket(t, tid, address, length);
    }

    /** The reply half of `poll`: room is made for packet and frame header before building. */
    method SendReply(c: Config) returns (r: Result<(), Errc>)
      requires c.ReadReply? || c.WriteReply?
      modifies `sendBuf, sendBuf, backend`sent
      ensures sendBuf == old(sendBuf) || (fresh(sendBuf) && policy.AutoResize?)
      ensures Ends(r, Fits(policy, old(sendBuf.Length), c), backend.accepts)
      ensures sendBuf.Length == Stretched(policy, old(sendBuf.Length), TotalSize(c) + 12)
      ensures backend.sent == if r.Ok? then old(backend.sent) + Framed(c) else old(backend.sent)
    {
      if TotalSize(c) + 12 > sendBuf.Length {
        if policy.Fixed? {
          return Err(Errc.NoBufferSpace);
        }
        Resize(TotalSize(c) + 12);
      }
      r := BuildAndSend(c);
    }

    /** `emitTimeCode`: fourteen bytes that a receiver takes as one time-code frame. */
    method EmitTimeCode(code: byte) returns (r: Result<(), Errc>)
      modifies backend`sent
      ensures r == if backend.accepts then Ok(()) else Err(IoError)
      ensures r.Ok? ==> backend.sent == old(backend.sent) + Render(Time(TIME_CODE, code))
      ensures r.Err? ==> backend.sent == old(backend.sent)
    {
      var packet := new byte[14](_ => 0);
      packet[0] := 0x30;
      packet[1] := 0x00;
      for i := 2 to 11
        invariant backend.sent == old(backend.sent)
        invariant packet[0] == 0x30 && forall k :: 1 <= k < 14 ==> packet[k] == 0
      {
        packet[i] := 0x00;
      }
      packet[11] := 0x02;
      packet[12] := code;
      packet[13] := 0x00;
      assert packet[..] == Render(Time(TIME_CODE, code));
      r := backend.SendAll(packet[..]);
    }
  }
}
