/** The TCP backend as the node sees it: a stream of bytes that have arrived, handed out in chunks of any size, and
    a stream of bytes that have been sent. */
module Transport {
  import opened Bytes
  import opened PacketParsing

  /** The `std::errc` values and parse statuses that the node reports. */
  datatype Errc =
    | BadMessage
    | NoBufferSpace
    | ConnectionAborted
    | IoError
    | TryAgain
    | TimedOut
    | OperationCanceled
    | ParseFailed(status: Status)

  class Backend {
    var incoming: seq<byte>
    var sent: seq<byte>
    var accepts: bool  // whether the next `sendAll` goes through; not ours to change

    constructor (bytes: seq<byte>, accepts: bool)
      ensures incoming == bytes && sent == [] && this.accepts == accepts
    {
      incoming := bytes;
      sent := [];
      this.accepts := accepts;
    }

    /** `recvSome`: some non-empty prefix of what has arrived, as much as fits at most. With nothing arrived it fails
        or, at the end of the stream, returns zero. */
    method RecvSome(buf: array<byte>, lo: nat, hi: nat) returns (r: Result<nat, Errc>)
      requires lo <= hi <= buf.Length
      modifies this`incoming, buf
      ensures lo == hi ==> r == Ok(0) && incoming == old(incoming)
      ensures lo < hi && old(incoming) != [] ==>
        && r.Ok? && 1 <= r.value <= hi - lo && r.value <= |old(incoming)|
        && buf[lo..lo + r.value] == old(incoming)[..r.value] && incoming == old(incoming)[r.value..]
      ensures lo < hi && old(incoming) == [] ==> (r == Ok(0) || r.Err?) && incoming == []
      ensures forall k :: 0 <= k < buf.Length && (k < lo || hi <= k) ==> buf[k] == old(buf[k])
    {
      if lo == hi {
        return Ok(0);
      }
      if incoming == [] {
        if * {
          return Ok(0);
        } else {
          return Err(IoError);
        }
      }
      var n :| 1 <= n <= hi - lo && n <= |incoming|;
      var i := 0;
      while i < n
        invariant 0 <= i <= n
        invariant incoming == old(incoming)
        invariant forall k :: 0 <= k < i ==> buf[lo + k] == incoming[k]
        invariant forall k :: 0 <= k < buf.Length && (k < lo || hi <= k) ==> buf[k] == old(buf[k])
      {
        buf[lo + i] := incoming[i];
        i := i + 1;
      }
      incoming := incoming[n..];
      return Ok(n);
    }

    /** `sendAll`: all the bytes, or an error. */
    method SendAll(bytes: seq<byte>) returns (r: Result<(), Errc>)
      modifies this`sent
      ensures r == if accepts then Ok(()) else Err(IoError)
      ensures sent == if accepts then old(sent) + bytes else old(sent)
    {
      if !accepts {
        return Err(IoError);
      }
      sent := sent + bytes;
      return Ok(());
    }

    /** `recvExact_`: fills the span whatever the chunking, or consumes everything and reports the shortage. */
    method RecvExact(buf: array<byte>, lo: nat, hi: nat) returns (r: Result<nat, Errc>)
      requires lo <= hi <= buf.Length
      modifies this`incoming, buf
      ensures |old(incoming)| >= hi - lo ==>
        && r == Ok(hi - lo)
        && buf[lo..hi] == old(incoming)[..hi - lo] && incoming == old(incoming)[hi - lo..]
      ensures |old(incoming)| < hi - lo ==> incoming == [] && (r == Ok(0) || r.Err?)
      ensures forall k :: 0 <= k < buf.Length && (k < lo || hi <= k) ==> buf[k] == old(buf[k])
    {
      var at := lo;
      while at < hi
        invariant lo <= at <= hi && at - lo <= |old(incoming)|
        invariant buf[lo..at] == old(incoming)[..at - lo]
        invariant incoming == old(incoming)[at - lo..]
        invariant forall k :: 0 <= k < buf.Length && (k < lo || hi <= k) ==> buf[k] == old(buf[k])
        decreases hi - at
      {
        ghost var before := incoming;
        ghost var filled := buf[lo..at];
        var got := RecvSome(buf, at, hi);
        if got.Err? || got.value == 0 {
          return got;
        }
        assert buf[lo..at] == filled;
        assert buf[lo..at + got.value] == filled + before[..got.value];
        at := at + got.value;
      }
      return Ok(hi - lo);
    }

    /** `ignoreNBytes_`: drops n bytes through a sixteen-byte scratch buffer. */
    method IgnoreBytes(n: nat) returns (r: Result<nat, Errc>)
      modifies this`incoming
      ensures |old(incoming)| >= n ==> r == Ok(n) && incoming == old(incoming)[n..]
      ensures |old(incoming)| < n ==> incoming == []
    {
      var scratch := new byte[16](_ => 0);
      var left := n;
      while left > scratch.Length
        invariant 0 <= left <= n && n - left <= |old(incoming)|
        invariant incoming == old(incoming)[n - left..]
      {
        var got := RecvSome(scratch, 0, scratch.Length);
        if got.Err? {
          return got;
        }
        if got.value == 0 {
          return Err(ConnectionAborted);
        }
        left := left - got.value;
      }
      if left > 0 {
        ghost var before := incoming;
        var got := RecvExact(scratch, 0, left);
        assert |before| >= left ==> before[left..] == old(incoming)[n..];
        if got.Err? {
          return got;
        }
      }
      return Ok(n);
    }
  }
}
