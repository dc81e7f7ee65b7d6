/** `poll` of spw_rmap_tcp_node_impl.hh: one packet is received and parsed; a reply completes an operation, a command is
    served and answered. */
module Polling {
  import opened Bytes
  import opened Packets
  import opened PacketParsing
  import opened Framing
  import opened Transport
  import opened Reception
  import opened Sending
  import opened TransactionTable
  import opened Transactions

  /** The reply to a command, its two logical addresses filled in as the source does. */
  function ReplyTo(command: Parsed, data: seq<byte>): Config
    requires command.ReadCommand? || command.WriteCommand?
  {
    if command.ReadCommand?
    then ReadReply(command.replyAddress, command.targetLogical, 0, command.initiatorLogical, command.transactionId,
                   data, true)
    else WriteReply(command.replyAddress, command.targetLogical, 0, command.initiatorLogical, command.transactionId,
                    true, true)
  }

  /** The slot exists and its handler, if any, belongs to an operation that was started. */
  predicate Ready(t: Table, i: int) {
    && 0 <= i < |t.reply| && Shaped(t, |t.reply|)
    && (t.reply[i].Some? ==> t.reply[i].value < |t.promises|)
  }

  /** How serving an answered command ends: there is no room for the reply in a fixed send buffer, or the send fails, or
      the reply goes out. */
  predicate ServeEnds(r: Result<bool, Errc>, o: Outlet, c: Config) {
    r == if !Fits(o.policy, o.buffer, c) then Err(Errc.NoBufferSpace)
         else if !o.accepts then Err(IoError)
         else Ok(true)
  }

  /** What `poll` owes its caller for a parsed packet: the table goes from t to u, what has been sent from `sent` to
      `sent'`. */
  predicate Handled(p: Packet, t: Table, u: Table, sent: seq<byte>, sent': seq<byte>, idMin: int, idMax: int,
                    o: Outlet, answer: Option<seq<byte>>, throws: bool, r: Result<bool, Errc>)
    requires p.kind.Some?
  {
    var packet := View(p);
    if packet.ReadCommand? || packet.WriteCommand? then
      && u == t
      && (answer.None? ==> r == Err(OperationCanceled))
      && (r.Err? ==> sent' == sent)
      && (r.Ok? ==> answer.Some? && sent' == sent + Framed(ReplyTo(packet, answer.value)))
      && (answer.Some? ==> ServeEnds(r, o, ReplyTo(packet, answer.value)))
    else
      var i := packet.transactionId - idMin;
      && sent' == sent
      && (if 0 <= i < idMax - idMin
          then r == Ok(true) && Ready(t, i) && u == Deliver(t, i, throws)
          else r == Err(BadMessage) && u == t)
  }

  /** The stream holds a good packet. */
  predicate Good(out: Framing.Outcome) {
    out.Whole? && Verdict(out.payload) == Success
  }

  /** The error behind everything else the decoder may find, unless the stream ends inside a packet. */
  function Refusal(out: Framing.Outcome): Errc
    requires !Good(out) && !out.Starved?
  {
    match out
    case Whole(payload, _, _) => ParseFailed(Verdict(payload))
    case Malformed(_) => BadMessage
    case NoSpace(_) => Errc.NoBufferSpace
  }

  /** What `poll` owes its caller, given what the pure decoder makes of the stream: the parser's record goes from p to
      p', the stream becomes incoming'. A refused frame or a bad packet touches no operation and sends nothing, and its
      error is reported unless the node is closed. Of a stream that ends inside a packet nothing is promised, unless it
      ends right away. */
  predicate Polled(out: Framing.Outcome, short: bool, p: Packet, p': Packet, incoming': seq<byte>, t: Table, u: Table,
                   sent: seq<byte>, sent': seq<byte>, idMin: int, idMax: int, o: Outlet, closed: bool,
                   answer: Option<seq<byte>>, throws: bool, r: Result<bool, Errc>)
  {
    && (out.Whole? ==> p' == After(p, out.payload))
    && (!out.Whole? && !out.Starved? ==> p' == p)
    && (!out.Starved? ==> incoming' == out.rest)
    && (Good(out) ==> p'.kind.Some? && Handled(p', t, u, sent, sent', idMin, idMax, o, answer, throws, r))
    && (!Good(out) && !out.Starved? ==>
         u == t && sent' == sent && r == if closed then Ok(false) else Err(Refusal(out)))
    && (short ==> u == t && sent' == sent && p' == p && (r == Ok(false) || (!closed && r.Err?)))
  }

  /** Handlers in the table belong to operations that were started. */
  predicate CanStart(t: Table) {
    Shaped(t, |t.reply|)
    && forall i :: 0 <= i < |t.reply| && t.reply[i].Some? ==> t.reply[i].value < |t.promises|
  }

  /** What starting an operation owes its caller: the table takes the start step with the outcome of sending, and the
      command is on the wire, under the ID the caller is told, exactly when there is one. */
  predicate Started(t: Table, u: Table, op: Op, transactionId: Option<int>, send: TransactionTable.Outcome,
                    now: int, later: int, timeout: int, idMin: int, sent: seq<byte>, sent': seq<byte>,
                    request: Request, initiator: byte, verify: bool, o: Outlet)
  {
    && CanStart(t) && u == Start(t, now, later, timeout, send).0 && op == |t.promises|
    && (send.Err? || transactionId.Some? ==> Ends(send, Enough(o, request), o.accepts))
    && op < |u.issued| && transactionId == (if u.issued[op].Some? then Some(idMin + u.issued[op].value) else None)
    && (transactionId.None? ==> sent' == sent)
    && (transactionId.Some? ==> CommandGoesOut(sent, sent', request, initiator, verify, transactionId.value))
  }

  lemma StartedWithoutId(t: Table, u: Table, op: Op, now: int, later: int, timeout: int, idMin: int, sent: seq<byte>,
                         request: Request, initiator: byte, verify: bool, o: Outlet)
    requires CanStart(t) && u == Start(t, now, later, timeout, Ok(())).0 && op == |t.promises|
    requires op < |u.issued| && u.issued[op].None?
    ensures Started(t, u, op, None, Ok(()), now, later, timeout, idMin, sent, sent, request, initiator, verify, o)
  {
  }

  lemma StartedAndSent(t: Table, u: Table, op: Op, id: int, now: int, later: int, timeout: int, idMin: int,
                       sent: seq<byte>, sent': seq<byte>, request: Request, initiator: byte, verify: bool,
                       o: Outlet)
    requires CanStart(t) && u == Start(t, now, later, timeout, Ok(())).0 && op == |t.promises|
    requires op < |u.issued| && id >= idMin && u.issued[op] == Some(id - idMin)
    requires CommandGoesOut(sent, sent', request, initiator, verify, id) && Ends(Ok(()), Enough(o, request), o.accepts)
    ensures Started(t, u, op, Some(id), Ok(()), now, later, timeout, idMin, sent, sent', request, initiator, verify, o)
  {
  }

  lemma StartedInVain(t: Table, u: Table, op: Op, error: Errc, now: int, later: int, timeout: int, idMin: int,
                      sent: seq<byte>, request: Request, initiator: byte, verify: bool, o: Outlet)
    requires CanStart(t) && u == Start(t, now, later, timeout, Err(error)).0 && op == |t.promises|
    requires op < |u.issued| && u.issued[op].None? && Ends(Err(error), Enough(o, request), o.accepts)
    ensures Started(t, u, op, None, Err(error), now, later, timeout, idMin, sent, sent, request, initiator, verify, o)
  {
  }

  class Node {
    const backend: Backend
    const parser: PacketParser
    const receiver: Receiver
    const sender: Sender
    const table: Transactions

    constructor (backend: Backend, parser: PacketParser, receiver: Receiver, sender: Sender, table: Transactions)
      requires receiver.backend == sender.backend == backend && receiver.parser == parser
      requires receiver.recvBuf != sender.sendBuf && table.Valid()
      ensures Valid() && this.backend == backend && this.parser == parser
      ensures this.receiver == receiver && this.sender == sender && this.table == table
    {
      this.backend, this.parser, this.receiver, this.sender, this.table := backend, parser, receiver, sender, table;
    }

    ghost predicate Valid()
      reads this, receiver, sender, table
    {
      && receiver.backend == sender.backend == backend && receiver.parser == parser
      && receiver.recvBuf != sender.sendBuf
      && table.Valid()
    }

    /** The reply branch: the operation in the slot of the packet's ID completes. */
    method Complete(throws: bool) returns (r: Result<bool, Errc>)
      requires Valid()
      modifies table
      ensures Valid()
      ensures
        var i := parser.packet.transactionId - table.idMin;
        if 0 <= i < table.idMax - table.idMin
        then r == Ok(true) && SlotOk(old(table.View()), i) && table.View() == Deliver(old(table.View()), i, throws)
        else r == Err(BadMessage) && table.View() == old(table.View())
    {
      r := table.DeliverReply(parser.packet.transactionId, throws);
    }

    /** The command branches. `answer` is what the user's callback returned, or None if it threw. */
    method Serve(answer: Option<seq<byte>>) returns (r: Result<bool, Errc>)
      requires Valid() && parser.packet.kind.Some?
      requires View(parser.packet).ReadCommand? || View(parser.packet).WriteCommand?
      modifies sender`sendBuf, sender.sendBuf, backend`sent
      ensures Valid() && (sender.sendBuf == old(sender.sendBuf) || fresh(sender.sendBuf))
      ensures answer.None? ==> r == Err(OperationCanceled) && backend.sent == old(backend.sent)
      ensures answer.Some? && r.Ok? ==>
        backend.sent == old(backend.sent) + Framed(ReplyTo(View(parser.packet), answer.value))
      ensures r.Err? ==> backend.sent == old(backend.sent)
      ensures answer.Some? ==> ServeEnds(r, old(sender.Out()), ReplyTo(View(parser.packet), answer.value))
    {
      if answer.None? {
        return Err(OperationCanceled);
      }
      var c := ReplyTo(View(parser.packet), answer.value);
      var sent := sender.SendReply(c);
      return if sent.Ok? then Ok(true) else Err(sent.error);
    }

    /** The switch on the packet's kind. */
    method Dispatch(answer: Option<seq<byte>>, throws: bool) returns (r: Result<bool, Errc>)
      requires Valid() && parser.packet.kind.Some?
      modifies backend`sent, table, sender`sendBuf, sender.sendBuf
      ensures Valid()
      ensures Handled(parser.packet, old(table.View()), table.View(), old(backend.sent), backend.sent,
                      table.idMin, table.idMax, old(sender.Out()), answer, throws, r)
    {
      match parser.packet.kind.value
      case ReadReplyKind => r := Complete(throws);
      case WriteReplyKind => r := Complete(throws);
      case ReadKind => r := Serve(answer);
      case WriteKind => r := Serve(answer);
    }

    /** `poll`: `closed` is what isShutdowned() says, `answer` and `throws` how the user's callbacks end. Whatever the
        chunking, the packet dispatched is the one the pure decoder finds. */
    method Poll(closed: bool, answer: Option<seq<byte>>, throws: bool) returns (r: Result<bool, Errc>)
      requires Valid()
      modifies receiver`recvBuf, receiver.recvBuf, backend, parser, table, sender`sendBuf, sender.sendBuf
      ensures Valid()
      ensures
        Polled(Decode(receiver.policy, old(receiver.recvBuf.Length), old(backend.incoming), []),
               |old(backend.incoming)| < 12, old(parser.packet), parser.packet, backend.incoming,
               old(table.View()), table.View(), old(backend.sent), backend.sent, table.idMin, table.idMax,
               old(sender.Out()), closed, answer, throws, r)
    {
      ghost var out;
      var received;
      received, out := Receive();
      if received.Err? {
        return if closed then Ok(false) else Err(received.error);
      }
      if received.value == 0 {
        return Ok(false);
      }
      r := Dispatch(answer, throws);
    }

    /** Receives and parses one packet. */
    method Receive() returns (received: Result<nat, Errc>, ghost out: Framing.Outcome)
      requires Valid()
      modifies receiver`recvBuf, receiver.recvBuf, backend`incoming, parser
      ensures Valid()
      ensures out == Decode(receiver.policy, old(receiver.recvBuf.Length), old(backend.incoming), [])
      ensures received.Ok? && received.value != 0 ==> parser.packet.kind.Some?
      ensures !out.Starved? ==> backend.incoming == out.rest
      ensures out.Whole? ==> parser.packet == After(old(parser.packet), out.payload)
      ensures !out.Whole? && !out.Starved? ==> parser.packet == old(parser.packet)
      ensures Good(out) ==> received.Ok? && received.value != 0
      ensures !Good(out) && !out.Starved? ==> received == Err(Refusal(out))
      ensures |old(backend.incoming)| < 12 ==>
        out.Starved? && (received == Ok(0) || received.Err?) && parser.packet == old(parser.packet)
    {
      out := Decode(receiver.policy, receiver.recvBuf.Length, backend.incoming, []);
      received := receiver.ReceivePacket();
      if out.Whole? && Verdict(out.payload) == Success {
        ParsedHasKind(old(parser.packet), out.payload);
      }
    }

    /** `startWriteAsyncOperation_` and `startReadAsyncOperation_`: allocate, register, send; a send that fails takes
        the handlers back out. */
    method Start(request: Request, now: int, later: int)
      returns (op: Op, transactionId: Option<int>, ghost send: TransactionTable.Outcome)
      requires Valid() && |request.target.reply| <= 12
      modifies table, sender`sendBuf, sender.sendBuf, backend`sent
      ensures Valid()
      ensures Started(old(table.View()), table.View(), op, transactionId, send, now, later, table.timeout, table.idMin,
                      old(backend.sent), backend.sent, request, sender.initiator, sender.verifyMode,
                      old(sender.Out()))
    {
      ghost var t := table.View();
      op, transactionId := table.Open(now, later);
      if transactionId.Some? {
        transactionId, send := Conclude(request, op, transactionId.value, t, now, later);
      } else {
        send := Ok(());
        StartedWithoutId(t, table.View(), op, now, later, table.timeout, table.idMin, backend.sent, request,
                         sender.initiator, sender.verifyMode, sender.Out());
      }
    }

    /** The rest of a start once the handlers are registered. */
    method Conclude(request: Request, op: Op, id: int, ghost t: Table, ghost now: int, ghost later: int)
      returns (transactionId: Option<int>, ghost send: TransactionTable.Outcome)
      requires Valid() && |request.target.reply| <= 12
      requires Inv(t, table.idMax - table.idMin) && op == |t.promises| && CanStart(t)
      requires table.View() == TransactionTable.Start(t, now, later, table.timeout, Ok(())).0
      requires op < |table.issued| && table.issued[op].Some? && id == table.idMin + table.issued[op].value
      requires 0 <= id < 0x1_0000
      modifies table, sender`sendBuf, sender.sendBuf, backend`sent
      ensures Valid()
      ensures Started(t, table.View(), op, transactionId, send, now, later, table.timeout, table.idMin,
                      old(backend.sent), backend.sent, request, sender.initiator, sender.verifyMode,
                      old(sender.Out()))
    {
      ghost var sent, o := backend.sent, sender.Out();
      var outcome := SendOpened(request, op, id, t, now, later);
      send := outcome;
      if outcome.Ok? {
        transactionId := Some(id);
        StartedAndSent(t, table.View(), op, id, now, later, table.timeout, table.idMin, sent, backend.sent, request,
                       sender.initiator, sender.verifyMode, o);
      } else {
        transactionId := None;
        StartedInVain(t, table.View(), op, outcome.error, now, later, table.timeout, table.idMin, sent, request,
                      sender.initiator, sender.verifyMode, o);
      }
    }

    /** Sends the command of an operation whose handlers are registered, or withdraws it. */
    method SendOpened(request: Request, op: Op, id: int, ghost t: Table, ghost now: int, ghost later: int)
      returns (send: Result<(), Errc>)
      requires Valid() && |request.target.reply| <= 12
      requires Inv(t, table.idMax - table.idMin) && op == |t.promises| && CanStart(t)
      requires table.View() == TransactionTable.Start(t, now, later, table.timeout, Ok(())).0
      requires op < |table.issued| && table.issued[op].Some? && id == table.idMin + table.issued[op].value
      requires 0 <= id < 0x1_0000
      modifies table, sender`sendBuf, sender.sendBuf, backend`sent
      ensures Valid() && table.timeout == old(table.timeout)
      ensures table.View() == TransactionTable.Start(t, now, later, table.timeout, send).0
      ensures op < |table.issued| && table.issued[op] == if send.Ok? then old(table.issued[op]) else None
      ensures send.Err? ==> backend.sent == old(backend.sent)
      ensures Ends(send, Enough(old(sender.Out()), request), old(backend.accepts))
      ensures send.Ok? ==>
        CommandGoesOut(old(backend.sent), backend.sent, request, sender.initiator, sender.verifyMode, id)
    {
      ghost var u := table.View();
      send := sender.SendCommand(request, id);
      assert table.View() == u;
      if send.Err? {
        table.Withdraw(op, id, send.error, t, now, later);
      }
    }
  }
}
