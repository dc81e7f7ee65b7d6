/** Packet reassembly: `recvAndParseOnePacket_` over a receive buffer that may grow, proved against the pure decoder
    for every chunking of the stream. */
module Reception {
  import opened Bytes
  import opened PacketParsing
  import opened Framing
  import opened Transport

  /** How one frame leaves the receive loop. */
  datatype Step = More | End | Restart | Stop(r: Result<nat, Errc>)

  class Receiver {
    const backend: Backend
    const parser: PacketParser
    const policy: Policy
    var recvBuf: array<byte>

    constructor (backend: Backend, parser: PacketParser, policy: Policy, size: nat)
      ensures this.backend == backend && this.parser == parser && this.policy == policy
      ensures fresh(recvBuf) && recvBuf.Length == size
    {
      this.backend := backend;
      this.parser := parser;
      this.policy := policy;
      recvBuf := new byte[size](_ => 0);
    }

    /** `recv_buf_.resize(size)` to a larger size: a new block that keeps the old contents as its prefix. */
    method Resize(size: nat)
      requires recvBuf.Length <= size
      modifies `recvBuf
      ensures fresh(recvBuf) && recvBuf.Length == size
      ensures recvBuf[..old(recvBuf.Length)] == old(recvBuf[..])
    {
      var contents := recvBuf[..];
      recvBuf := new byte[size](i => if 0 <= i < |contents| then contents[i] else 0);
    }

    /** Reads the next twelve bytes and checks type, reserved byte and length. */
    method ReceiveHeader() returns (r: Result<nat, Errc>, h: seq<byte>)
      modifies backend`incoming
      ensures |h| == 12
      ensures |old(backend.incoming)| < 12 ==> backend.incoming == [] && (r == Ok(0) || r.Err?)
      ensures |old(backend.incoming)| >= 12 ==>
        && h == old(backend.incoming)[..12] && backend.incoming == old(backend.incoming)[12..]
        && r == if GoodHeader(h) then Ok(12) else Err(BadMessage)
    {
      var header := new byte[12](_ => 0);
      r := backend.RecvExact(header, 0, 12);
      h := header[..];
      assert header[0..12] == h;
      if r == Ok(12) {
        if !KnownType(header[0]) || header[1] != 0 {
          return Err(BadMessage), h;
        }
        if FromBe64(h[4..12]) == 0 {
          return Err(BadMessage), h;
        }
      }
    }

    /** Makes room for n more bytes behind the first `used`: by growing, or not at all under the fixed policy. */
    method MakeRoom(used: nat, n: nat) returns (ok: bool)
      requires used <= recvBuf.Length
      modifies `recvBuf
      ensures ok == !(n + used > old(recvBuf.Length) && policy.Fixed?)
      ensures !ok ==> recvBuf == old(recvBuf)
      ensures ok ==> recvBuf.Length == Grown(old(recvBuf.Length), used, n)
      ensures recvBuf == old(recvBuf) || (fresh(recvBuf) && policy.AutoResize?)
      ensures used <= recvBuf.Length && recvBuf[..used] == old(recvBuf[..used])
    {
      if n > recvBuf.Length - used {
        if policy.Fixed? {
          return false;
        }
        ghost var kept := recvBuf[..used];
        Resize(used + n);
        assert recvBuf[..used] == recvBuf[..old(recvBuf.Length)][..used] == kept;
      }
      return true;
    }

    /** Receives n payload bytes right behind the first `used`. */
    method ReceivePayload(used: nat, n: nat) returns (r: Result<nat, Errc>)
      requires used + n <= recvBuf.Length && n > 0
      modifies recvBuf, backend`incoming
      ensures |old(backend.incoming)| >= n ==>
        && r == Ok(n) && backend.incoming == old(backend.incoming)[n..]
        && recvBuf[..used + n] == old(recvBuf[..used]) + old(backend.incoming)[..n]
      ensures |old(backend.incoming)| < n ==> backend.incoming == [] && (r == Ok(0) || r.Err?)
    {
      ghost var kept := recvBuf[..used];
      r := backend.RecvExact(recvBuf, used, used + n);
      assert recvBuf[..used] == kept;
      assert recvBuf[..used + n] == recvBuf[..used] + recvBuf[used..used + n];
    }

    /** Reads the two bytes behind a time-code header and checks them. */
    method ReceiveTimeCode(h: seq<byte>) returns (r: Result<(), Errc>)
      requires |h| == 12
      modifies backend`incoming
      ensures h[2..12] != TIME_CODE_TAIL ==> r == Err(BadMessage) && backend.incoming == old(backend.incoming)
      ensures h[2..12] == TIME_CODE_TAIL && |old(backend.incoming)| >= 2 ==>
        && backend.incoming == old(backend.incoming)[2..]
        && r == if old(backend.incoming)[1] == 0 then Ok(()) else Err(BadMessage)
      ensures h[2..12] == TIME_CODE_TAIL && |old(backend.incoming)| < 2 ==> backend.incoming == []
    {
      if h[2..12] != TIME_CODE_TAIL {
        return Err(BadMessage);
      }
      var tc := new byte[2](_ => 0);
      var got := backend.RecvExact(tc, 0, 2);
      if got.Err? {
        return Err(got.error);
      }
      assert |old(backend.incoming)| >= 2 ==> tc[1] == tc[0..2][1] == old(backend.incoming)[1];
      return if tc[1] != 0 then Err(BadMessage) else Ok(());
    }

    /** Reads one frame, having accumulated the first `used` bytes of the buffer; the working span starts at `start`.
        The rest of the stream then decodes to what the stream decoded to before the frame. */
    method ReceiveFrame(used: nat, start: nat) returns (step: Step, used': nat, start': nat)
      requires used <= recvBuf.Length
      requires start == used || backend.incoming == []
      modifies `recvBuf, recvBuf, backend`incoming
      ensures recvBuf == old(recvBuf) || fresh(recvBuf)
      ensures recvBuf.Length >= old(recvBuf.Length) && used' <= recvBuf.Length
      ensures policy.Fixed? ==> recvBuf == old(recvBuf)
      ensures |backend.incoming| < |old(backend.incoming)| || step.Stop?
      ensures step.Stop? ==> step.r.Err? || step.r == Ok(0)
      ensures |old(backend.incoming)| < 12 ==> step.Stop?
      ensures var out := Decode(policy, old(recvBuf.Length), old(backend.incoming), old(recvBuf[..used]));
              match step
              case Stop(r) => RefusedAs(out, r, backend.incoming)
              case More => Exhausted(out)
                || (start' == used' && out == Decode(policy, recvBuf.Length, backend.incoming, recvBuf[..used']))
              case End => Exhausted(out)
                || (0 < used' && out == Whole(recvBuf[..used'], backend.incoming, recvBuf.Length))
              case Restart => Exhausted(out) || out == Decode(policy, recvBuf.Length, backend.incoming, [])
    {
      used', start' := used, start;
      var got, h := ReceiveHeader();
      if got.Err? || got.value == 0 {
        return Stop(got), used', start';
      }
      var n := FromBe64(h[4..12]);
      var room := MakeRoom(used, n);
      if !room {
        return Stop(Err(Errc.NoBufferSpace)), used', start';
      }
      if h[0] == END_OF_PACKET || h[0] == PARTIAL {
        got := ReceivePayload(start, n);
        if got.Err? {
          return Stop(got), used', start';
        }
        used' := used + got.value;
        start' := start + n;
        step := if h[0] == END_OF_PACKET then End else More;
      } else if h[0] == ERROR_END {
        got := backend.IgnoreBytes(n);
        if got.Err? {
          return Stop(got), used', start';
        }
        step := Restart;
      } else {
        var tc := ReceiveTimeCode(h);
        step := if tc.Err? then Stop(Err(tc.error)) else More;
      }
    }

    /** The stream has run dry in the middle of a packet. */
    ghost predicate Exhausted(out: Outcome)
      reads backend
    {
      out.Starved? && backend.incoming == []
    }

    /** Errors without a packet: a refused frame is reported as such, and nothing is read beyond it. */
    static ghost predicate RefusedAs(out: Outcome, r: Result<nat, Errc>, incoming: seq<byte>) {
      match out
      case Whole(_, _, _) => false
      case Malformed(rest) => r == Err(BadMessage) && incoming == rest
      case NoSpace(rest) => r == Err(Errc.NoBufferSpace) && incoming == rest
      case Starved => true
    }

    /** What the receive call owes its caller for each outcome of the decoder. */
    twostate predicate Delivered(new out: Outcome, new r: Result<nat, Errc>)
      reads this, recvBuf, backend, parser
    {
      if out.Whole? then
        && backend.incoming == out.rest
        && recvBuf.Length == out.capacity && |out.payload| <= out.capacity
        && recvBuf[..|out.payload|] == out.payload
        && parser.packet == After(old(parser.packet), out.payload)
        && r == (if Verdict(out.payload) == Success then Ok(|out.payload|)
                 else Err(ParseFailed(Verdict(out.payload))))
      else
        RefusedAs(out, r, backend.incoming) && (!out.Starved? ==> parser.packet == old(parser.packet))
    }

    /** Whatever the chunking, the bytes parsed are those of the pure decoder, exactly the frames it consumes are
        consumed, and refused frames are reported without touching the parsed packet. */
    method ReceivePacket() returns (r: Result<nat, Errc>)
      modifies `recvBuf, recvBuf, backend`incoming, parser
      ensures recvBuf == old(recvBuf) || fresh(recvBuf)
      ensures recvBuf.Length >= old(recvBuf.Length)
      ensures policy.Fixed? ==> recvBuf == old(recvBuf)
      ensures Delivered(Decode(policy, old(recvBuf.Length), old(backend.incoming), []), r)
      ensures r.Ok? && r.value != 0 ==> parser.packet.kind.Some?
      ensures |old(backend.incoming)| < 12 ==> (r == Ok(0) || r.Err?) && parser.packet == old(parser.packet)
      decreases |backend.incoming|
    {
      ghost var out := Decode(policy, recvBuf.Length, backend.incoming, []);
      var totalSize: nat, start: nat := 0, 0;
      var eof := false;
      assert recvBuf[..0] == [];
      while !eof
        invariant recvBuf == old(recvBuf) || fresh(recvBuf)
        invariant recvBuf.Length >= old(recvBuf.Length)
        invariant policy.Fixed? ==> recvBuf == old(recvBuf)
        invariant parser.packet == old(parser.packet)
        invariant totalSize <= recvBuf.Length
        invariant |backend.incoming| <= |old(backend.incoming)|
        invariant |old(backend.incoming)| < 12 ==> backend.incoming == old(backend.incoming) && !eof && totalSize == 0
        invariant Exhausted(out) || Agrees(out, totalSize, start, eof)
        decreases !eof, |backend.incoming|
      {
        var step;
        step, totalSize, start := ReceiveFrame(totalSize, start);
        match step {
          case Stop(error) =>
            return error;
          case Restart =>
            r := ReceivePacket();
            return;
          case End =>
            eof := true;
          case More =>
        }
      }
      if totalSize == 0 {
        // The stream ended inside the only frame of a packet: the source then hands its parser an empty span.
        return Err(ConnectionAborted);
      }
      var status := parser.Parse(recvBuf[..totalSize]);
      if status != Success {
        return Err(ParseFailed(status));
      }
      ParsedHasKind(old(parser.packet), recvBuf[..totalSize]);
      return Ok(totalSize);
    }

    /** At every loop head the working span is the suffix of the buffer after the accumulated bytes, and from there
        the rest of the stream decodes to what the whole stream decodes to. */
    ghost predicate Agrees(out: Outcome, totalSize: nat, start: nat, eof: bool)
      requires totalSize <= recvBuf.Length
      reads this, recvBuf, backend
    {
      if eof then 0 < totalSize && out == Whole(recvBuf[..totalSize], backend.incoming, recvBuf.Length)
      else start == totalSize && out == Decode(policy, recvBuf.Length, backend.incoming, recvBuf[..totalSize])
    }
  }
}
