/** What holds in every run of the two nodes: commands are served in the order they were sent, each once and unaltered;
    no operation completes twice; and a reply completes its own operation exactly unless that was given up, timed out or
    completed by an earlier reply. */
module EndToEnd {
  import opened Bytes
  import opened Packets
  import opened PacketParsing
  import opened RoundTrip
  import opened Framing
  import opened Sending
  import opened Transport
  import opened TransactionTable
  import opened Polling
  import opened Wires
  import opened TwoNodes

  type Promises = seq<Option<TransactionTable.Outcome>>

  // ---------- the invariant ----------

  lemma CommandCarried(setup: Setup, request: Request, tid: uint16)
    requires Proper(request)
    ensures Carried(CommandFor(request, setup.initiator, setup.verify, tid))
  {
  }

  lemma ReplyCarried(setup: Setup, request: Request, tid: uint16, data: seq<byte>)
    requires Proper(request) && |data| < 0x100_0000
    ensures
      var command := Expected(CommandFor(request, setup.initiator, setup.verify, tid));
      (command.ReadCommand? || command.WriteCommand?) && Carried(ReplyTo(command, data))
  {
  }

  /** A command sent is the one for its operation's request, under the ID its caller was told. */
  predicate SentOk(issued: seq<Option<nat>>, requests: seq<Request>, s: Sent, setup: Setup)
    requires setup.Valid()
  {
    && s.op < |requests| && s.op < |issued| && Proper(requests[s.op])
    && issued[s.op].Some? && issued[s.op].value < setup.Ids()
    && s.command == CommandFor(requests[s.op], setup.initiator, setup.verify, setup.idMin + issued[s.op].value)
  }

  /** Every operation sends at most one command. */
  ghost predicate ClientOk(issued: seq<Option<nat>>, requests: seq<Request>, sent: seq<Sent>, setup: Setup)
    requires setup.Valid()
  {
    && |requests| == |issued|
    && (forall k :: 0 <= k < |sent| ==> SentOk(issued, requests, sent[k], setup))
    && (forall j, k :: 0 <= j < k < |sent| ==> sent[j].op < sent[k].op)
  }

  predicate SentFor(sent: seq<Sent>, op: Op) {
    exists k :: 0 <= k < |sent| && sent[k].op == op
  }

  /** An operation whose caller was told an ID has sent its command. */
  ghost predicate AllSent(issued: seq<Option<nat>>, sent: seq<Sent>) {
    forall op: Op :: op < |issued| && issued[op].Some? ==> SentFor(sent, op)
  }

  /** The callback was given the command that was sent. */
  predicate ServedOk(command: Config, s: Service) {
    && Buildable(command) && (command.Read? || command.Write?)
    && s.command == Expected(command)
    && (s.replied ==> s.answer.Some? && |s.answer.value| < 0x100_0000)
  }

  /** Commands are served in the order they were sent, each once. */
  ghost predicate ServerOk(sent: seq<Sent>, log: seq<Service>) {
    |log| <= |sent| && forall k :: 0 <= k < |log| ==> ServedOk(sent[k].command, log[k])
  }

  /** The wire to the server carries the commands not served yet. */
  ghost predicate UpOk(stream: seq<byte>, up: seq<Item>, todo: seq<Sent>) {
    && Sound(up) && stream == Wire(up)
    && |Messages(up)| == |todo|
    && forall j :: 0 <= j < |todo| ==> Messages(up)[j] == todo[j].command
  }

  predicate IsReply(log: seq<Service>, k: nat, c: Config) {
    && k < |log| && log[k].replied && log[k].answer.Some?
    && (log[k].command.ReadCommand? || log[k].command.WriteCommand?)
    && c == ReplyTo(log[k].command, log[k].answer.value)
  }

  /** The commands that were replied to, in the order of the replies. */
  function Replied(log: seq<Service>): seq<nat> {
    if log == [] then []
    else
      var n := |log| - 1;
      Replied(log[..n]) + if log[n].replied then [n] else []
  }

  /** The wire to the client carries the replies to the commands numbered `pending`. */
  ghost predicate DownOk(stream: seq<byte>, down: seq<Item>, pending: seq<nat>, log: seq<Service>) {
    && Sound(down) && stream == Wire(down)
    && |Messages(down)| == |pending|
    && (forall j :: 0 <= j < |pending| ==> IsReply(log, pending[j], Messages(down)[j]))
  }

  /** One of the first m replies taken in completed the operation. */
  predicate CompletedBy(deliveries: seq<Delivery>, op: Op, m: nat)
    requires m <= |deliveries|
  {
    exists i :: 0 <= i < m && deliveries[i].owner == Some(op)
  }

  /** Given up, timed out, or completed by a reply before the j-th. */
  predicate Missed(t: Table, deliveries: seq<Delivery>, j: nat, op: Op)
    requires j <= |deliveries|
  {
    op in t.cancelled || (op < |t.promises| && t.promises[op] == Some(Err(TimedOut))) || CompletedBy(deliveries, op, j)
  }

  /** The operation that a reply to `op` completes holds the same ID, is no older, and is settled by it. */
  predicate OwnerOk(t: Table, d: Delivery, op: Op)
    requires d.owner.Some?
  {
    var owner := d.owner.value;
    && owner < |t.promises| && t.promises[owner] == Some(if d.throws then Err(OperationCanceled) else Ok(()))
    && op <= owner < |t.issued| && t.issued[owner] == t.issued[op]
  }

  /** The j-th reply taken in is the one built for the j-th command replied to, unaltered; it completes that command's
      own operation unless that one has missed it. */
  ghost predicate DeliveryOk(t: Table, sent: seq<Sent>, log: seq<Service>, deliveries: seq<Delivery>, j: nat)
    requires j < |deliveries| <= |Replied(log)|
  {
    var d, k := deliveries[j], Replied(log)[j];
    && k < |sent| && IsReplyPacket(log, k, d.packet)
    && (d.owner == Some(sent[k].op) <==> !Missed(t, deliveries, j, sent[k].op))
    && (d.owner.Some? ==> OwnerOk(t, d, sent[k].op))
  }

  predicate IsReplyPacket(log: seq<Service>, k: nat, packet: Parsed) {
    && k < |log| && log[k].answer.Some? && (log[k].command.ReadCommand? || log[k].command.WriteCommand?)
    && packet == Expected(ReplyTo(log[k].command, log[k].answer.value))
  }

  /** An operation whose command went out is open, timed out or completed by a reply. */
  predicate SentSettled(t: Table, op: Op, deliveries: seq<Delivery>) {
    && op < |t.promises|
    && (t.promises[op].Some? ==>
         t.promises[op] == Some(Err(TimedOut)) || CompletedBy(deliveries, op, |deliveries|))
  }

  ghost predicate DeliveriesOk(t: Table, sent: seq<Sent>, log: seq<Service>, deliveries: seq<Delivery>) {
    && |deliveries| <= |Replied(log)|
    && (forall j :: 0 <= j < |deliveries| ==> DeliveryOk(t, sent, log, deliveries, j))
    && (forall i, j :: 0 <= i < j < |deliveries| && deliveries[i].owner.Some? ==>
         deliveries[i].owner != deliveries[j].owner)
    && (forall op: Op :: op < |t.promises| && t.promises[op] == Some(Ok(())) ==>
         CompletedBy(deliveries, op, |deliveries|))
    && (forall k :: 0 <= k < |sent| ==> SentSettled(t, sent[k].op, deliveries))
  }

  /** The operation in a slot is the newest that was given the slot's ID. */
  ghost predicate Latest(t: Table) {
    forall o: Op, i: nat :: o < |t.issued| && t.issued[o] == Some(i) && i < |t.reply| && t.reply[i].Some? ==>
      o <= t.reply[i].value
  }

  /** What is on the two wires. */
  datatype Flow = Flow(up: seq<Item>, down: seq<Item>)

  ghost predicate NetInv(n: Net, f: Flow, setup: Setup)
    requires setup.Valid()
  {
    Inv(n.table, setup.Ids()) && Latest(n.table) && FlowInv(n, f, setup)
  }

  ghost predicate FlowInv(n: Net, f: Flow, setup: Setup)
    requires setup.Valid()
  {
    && ClientOk(n.table.issued, n.requests, n.sent, setup)
    && AllSent(n.table.issued, n.sent)
    && ServerOk(n.sent, n.log)
    && UpOk(n.toServer, f.up, n.sent[|n.log|..])
    && DeliveriesOk(n.table, n.sent, n.log, n.deliveries)
    && DownOk(n.toClient, f.down, Replied(n.log)[|n.deliveries|..], n.log)
  }

  // ---------- replies in order ----------

  lemma RepliedAppend(log: seq<Service>, s: Service)
    ensures Replied(log + [s]) == Replied(log) + if s.replied then [|log|] else []
  {
    assert (log + [s])[..|log|] == log;
  }

  lemma NextReplies(log: seq<Service>, s: Service, taken: nat)
    requires taken <= |Replied(log)|
    ensures taken <= |Replied(log + [s])|
    ensures Replied(log + [s])[taken..] == if s.replied then Replied(log)[taken..] + [|log|] else Replied(log)[taken..]
  {
    RepliedAppend(log, s);
  }

  lemma {:induction false} RepliedInOrder(log: seq<Service>)
    ensures forall j :: 0 <= j < |Replied(log)| ==> Replied(log)[j] < |log| && log[Replied(log)[j]].replied
    ensures forall i, j :: 0 <= i < j < |Replied(log)| ==> Replied(log)[i] < Replied(log)[j]
    decreases |log|
  {
    if log != [] {
      RepliedInOrder(log[..|log| - 1]);
    }
  }

  // ---------- each part under each step ----------

  lemma UpTick(stream: seq<byte>, up: seq<Item>, todo: seq<Sent>, code: byte)
    requires UpOk(stream, up, todo)
    ensures UpOk(stream + Render(Time(TIME_CODE, code)), up + [Tick(code)], todo)
  {
    WireTick(up, code);
  }

  lemma UpSend(stream: seq<byte>, up: seq<Item>, todo: seq<Sent>, s: Sent, bytes: seq<byte>)
    requires UpOk(stream, up, todo) && Carried(s.command) && bytes == Framed(s.command)
    ensures UpOk(stream + bytes, up + [Message(s.command)], todo + [s])
  {
    WireSend(up, s.command);
  }

  lemma UpTake(capacity: nat, stream: seq<byte>, up: seq<Item>, todo: seq<Sent>) returns (rest: seq<Item>)
    requires UpOk(stream, up, todo)
    ensures
      var out := Decode(AutoResize, capacity, stream, []);
      && (out.Whole? <==> todo != [])
      && (out.Whole? ==>
        Carried(todo[0].command) && out.payload == Encode(todo[0].command) && UpOk(out.rest, rest, todo[1..]))
  {
    rest := PollWire(capacity, up);
  }

  lemma DownTick(stream: seq<byte>, down: seq<Item>, pending: seq<nat>, log: seq<Service>, code: byte)
    requires DownOk(stream, down, pending, log)
    ensures DownOk(stream + Render(Time(TIME_CODE, code)), down + [Tick(code)], pending, log)
  {
    WireTick(down, code);
  }

  lemma DownLog(stream: seq<byte>, down: seq<Item>, pending: seq<nat>, log: seq<Service>, s: Service)
    requires DownOk(stream, down, pending, log)
    ensures DownOk(stream, down, pending, log + [s])
  {
    assert forall j :: 0 <= j < |pending| && IsReply(log, pending[j], Messages(down)[j]) ==>
      IsReply(log + [s], pending[j], Messages(down)[j]);
  }

  lemma DownReply(stream: seq<byte>, down: seq<Item>, pending: seq<nat>, log: seq<Service>, s: Service, c: Config,
                  bytes: seq<byte>)
    requires DownOk(stream, down, pending, log) && Carried(c) && IsReply(log + [s], |log|, c) && bytes == Framed(c)
    ensures DownOk(stream + bytes, down + [Message(c)], pending + [|log|], log + [s])
  {
    WireSend(down, c);
    forall j | 0 <= j < |pending| + 1
      ensures IsReply(log + [s], (pending + [|log|])[j], (Messages(down) + [c])[j])
    {
      assert j < |pending| ==> IsReply(log, pending[j], Messages(down)[j]);
    }
  }

  lemma DownTake(capacity: nat, stream: seq<byte>, down: seq<Item>, pending: seq<nat>, log: seq<Service>)
    returns (rest: seq<Item>)
    requires DownOk(stream, down, pending, log)
    ensures
      var out := Decode(AutoResize, capacity, stream, []);
      && (out.Whole? <==> pending != [])
      && (out.Whole? ==>
        && Carried(Messages(down)[0]) && IsReply(log, pending[0], Messages(down)[0])
        && out.payload == Encode(Messages(down)[0]) && DownOk(out.rest, rest, pending[1..], log))
  {
    rest := PollWire(capacity, down);
  }

  lemma ClientTimeCodeKeeps(n: Net, f: Flow, code: byte, setup: Setup) returns (f': Flow)
    requires setup.Valid() && FlowInv(n, f, setup)
    ensures FlowInv(n.(toServer := n.toServer + Render(Time(TIME_CODE, code))), f', setup)
  {
    UpTick(n.toServer, f.up, n.sent[|n.log|..], code);
    f' := f.(up := f.up + [Tick(code)]);
  }

  lemma ServerTimeCodeKeeps(n: Net, f: Flow, code: byte, setup: Setup) returns (f': Flow)
    requires setup.Valid() && FlowInv(n, f, setup)
    ensures FlowInv(n.(toClient := n.toClient + Render(Time(TIME_CODE, code))), f', setup)
  {
    DownTick(n.toClient, f.down, Replied(n.log)[|n.deliveries|..], n.log, code);
    f' := f.(down := f.down + [Tick(code)]);
  }

  // ---------- starts and cancellations ----------

  lemma ClientStart(issued: seq<Option<nat>>, requests: seq<Request>, sent: seq<Sent>, setup: Setup,
                    slot: Option<nat>, request: Request)
    requires setup.Valid() && ClientOk(issued, requests, sent, setup)
    ensures ClientOk(issued + [slot], requests + [request], sent, setup)
  {
    forall k | 0 <= k < |sent|
      ensures SentOk(issued + [slot], requests + [request], sent[k], setup)
    {
      assert SentOk(issued, requests, sent[k], setup);
    }
  }

  lemma ClientSends(issued: seq<Option<nat>>, requests: seq<Request>, sent: seq<Sent>, setup: Setup,
                    slot: Option<nat>, request: Request, s: Sent)
    requires setup.Valid() && ClientOk(issued, requests, sent, setup)
    requires s.op == |issued| && SentOk(issued + [slot], requests + [request], s, setup)
    ensures ClientOk(issued + [slot], requests + [request], sent + [s], setup)
  {
    ClientStart(issued, requests, sent, setup, slot, request);
    forall k | 0 <= k < |sent|
      ensures sent[k].op < s.op
    {
      assert SentOk(issued, requests, sent[k], setup);
    }
  }

  lemma CommandIsCarried(u: Table, op: Op, request: Request, setup: Setup)
    requires setup.Valid() && Proper(request) && op < |u.issued|
    requires u.issued[op].Some? && u.issued[op].value < setup.Ids()
    ensures Carried(CommandOf(u, op, request, setup).value)
  {
    CommandCarried(setup, request, setup.idMin + u.issued[op].value);
  }

  lemma CommandIsSent(u: Table, requests: seq<Request>, request: Request, setup: Setup)
    requires setup.Valid() && Proper(request) && |u.issued| == |requests| + 1
    requires u.issued[|requests|].Some? && u.issued[|requests|].value < setup.Ids()
    ensures
      SentOk(u.issued, requests + [request], Sent(|requests|, CommandOf(u, |requests|, request, setup).value), setup)
  {
    assert (requests + [request])[|requests|] == request;
  }

  /** What starts and cancellations do to operations: at most, in-flight ones time out or are cancelled, and new ones
      that have not succeeded appear. */
  predicate Moved(t: Table, u: Table) {
    && |t.promises| <= |u.promises| && t.issued <= u.issued && t.cancelled <= u.cancelled
    && (forall op: Op :: op < |t.promises| ==>
         u.promises[op] == t.promises[op] || (InFlight(t, op) && u.promises[op] == Some(Err(TimedOut))))
    && (forall op: Op :: |t.promises| <= op < |u.promises| ==> u.promises[op] != Some(Ok(())))
    && (forall op: Op :: op in u.cancelled ==> op in t.cancelled || InFlight(t, op))
  }

  lemma StartMoves(t: Table, now: int, later: int, send: TransactionTable.Outcome, timeout: int, ids: nat)
    requires Inv(t, ids)
    ensures Moved(t, Next(t, StartEvent(now, later, send), timeout, ids))
  {
    HandlersAreStarted(t, ids);
    var e := FirstExpired(t, now, timeout, 0);
    if e < ids {
      assert SlotOk(t, e);
    }
  }

  lemma GiveUpMoves(t: Table, op: Op, timeout: int, ids: nat)
    requires Inv(t, ids)
    ensures Moved(t, Next(t, CancelEvent(op), timeout, ids))
  {
    assert Seated(t, op);
  }

  lemma StartLatest(t: Table, now: int, later: int, send: TransactionTable.Outcome, timeout: int, ids: nat)
    requires Inv(t, ids) && Latest(t)
    ensures Latest(Next(t, StartEvent(now, later, send), timeout, ids))
  {
    HandlersAreStarted(t, ids);
  }

  lemma GiveUpLatest(t: Table, op: Op, timeout: int, ids: nat)
    requires Inv(t, ids) && Latest(t)
    ensures Latest(Next(t, CancelEvent(op), timeout, ids))
  {
    assert Seated(t, op);
  }

  lemma DeliveryMoves(t: Table, u: Table, sent: seq<Sent>, more: seq<Sent>, log: seq<Service>,
                      deliveries: seq<Delivery>, j: nat)
    requires j < |deliveries| <= |Replied(log)| && DeliveryOk(t, sent, log, deliveries, j) && Moved(t, u)
    requires sent[Replied(log)[j]].op < |t.promises| == |t.issued|
    ensures DeliveryOk(u, sent + more, log, deliveries, j)
  {
    var d, op := deliveries[j], sent[Replied(log)[j]].op;
    assert (sent + more)[Replied(log)[j]] == sent[Replied(log)[j]];
    assert u.issued[op] == t.issued[op];
  }

  lemma DeliveriesMove(t: Table, u: Table, sent: seq<Sent>, more: seq<Sent>, log: seq<Service>,
                       deliveries: seq<Delivery>)
    requires DeliveriesOk(t, sent, log, deliveries) && Moved(t, u) && |t.issued| == |t.promises|
    requires forall k :: 0 <= k < |more| ==> more[k].op < |u.promises| && u.promises[more[k].op].None?
    ensures DeliveriesOk(u, sent + more, log, deliveries)
  {
    forall j | 0 <= j < |deliveries|
      ensures DeliveryOk(u, sent + more, log, deliveries, j)
    {
      assert DeliveryOk(t, sent, log, deliveries, j);
      assert SentSettled(t, sent[Replied(log)[j]].op, deliveries);
      DeliveryMoves(t, u, sent, more, log, deliveries, j);
    }
    forall k | 0 <= k < |sent + more|
      ensures SentSettled(u, (sent + more)[k].op, deliveries)
    {
      assert k < |sent| ==> SentSettled(t, sent[k].op, deliveries);
    }
  }

  lemma AllSentStart(issued: seq<Option<nat>>, sent: seq<Sent>, slot: Option<nat>, more: seq<Sent>)
    requires AllSent(issued, sent)
    requires slot.Some? ==> more != [] && more[0].op == |issued|
    ensures AllSent(issued + [slot], sent + more)
  {
    forall op: Op | op <= |issued| && (issued + [slot])[op].Some?
      ensures SentFor(sent + more, op)
    {
      if op < |issued| {
        assert SentFor(sent, op);
        var k :| 0 <= k < |sent| && sent[k].op == op;
        assert (sent + more)[k].op == op;
      } else {
        assert (sent + more)[|sent|].op == op;
      }
    }
  }

  /** A start that put a command on the wire. */
  lemma StartSent(n: Net, f: Flow, setup: Setup, u: Table, request: Request, s: Sent, stream: seq<byte>, up: seq<Item>)
    requires setup.Valid() && FlowInv(n, f, setup) && Moved(n.table, u) && |n.table.issued| == |n.table.promises|
    requires s.op == |n.table.promises| < |u.promises| && u.promises[s.op].None?
    requires ClientOk(u.issued, n.requests + [request], n.sent + [s], setup)
    requires UpOk(stream, up, n.sent[|n.log|..] + [s]) && AllSent(u.issued, n.sent + [s])
    ensures FlowInv(n.(table := u, requests := n.requests + [request], sent := n.sent + [s], toServer := stream),
                    f.(up := up), setup)
  {
    assert (n.sent + [s])[|n.log|..] == n.sent[|n.log|..] + [s];
    DeliveriesMove(n.table, u, n.sent, [s], n.log, n.deliveries);
    ServerStart(n.sent, n.log, s);
  }

  lemma ServerStart(sent: seq<Sent>, log: seq<Service>, s: Sent)
    requires ServerOk(sent, log)
    ensures ServerOk(sent + [s], log)
  {
  }

  /** A start that failed at once. */
  lemma StartFailed(n: Net, f: Flow, setup: Setup, u: Table, request: Request)
    requires setup.Valid() && FlowInv(n, f, setup) && Moved(n.table, u) && |n.table.issued| == |n.table.promises|
    requires u.issued == n.table.issued + [None]
    ensures FlowInv(n.(table := u, requests := n.requests + [request]), f, setup)
  {
    ClientStart(n.table.issued, n.requests, n.sent, setup, None, request);
    AllSentStart(n.table.issued, n.sent, None, []);
    DeliveriesMove(n.table, u, n.sent, [], n.log, n.deliveries);
    assert n.sent + [] == n.sent;
  }

  lemma StartSends(n: Net, f: Flow, request: Request, setup: Setup, u: Table, command: Config) returns (f': Flow)
    requires setup.Valid() && FlowInv(n, f, setup) && Moved(n.table, u) && |n.table.issued| == |n.table.promises|
    requires ClientOk(u.issued, n.requests + [request], n.sent + [Sent(|n.table.promises|, command)], setup)
    requires |n.table.promises| < |u.promises| && u.promises[|n.table.promises|].None? && Carried(command)
    requires AllSent(u.issued, n.sent + [Sent(|n.table.promises|, command)])
    ensures FlowInv(Launch(n, u, request, Some(command)), f', setup)
  {
    var bytes := Framed(command);
    var s := Sent(|n.table.promises|, command);
    UpSend(n.toServer, f.up, n.sent[|n.log|..], s, bytes);
    f' := f.(up := f.up + [Message(command)]);
    StartSent(n, f, setup, u, request, s, n.toServer + bytes, f'.up);
  }

  /** The command of a new operation is in order, and the first of its operation. */
  lemma CommandIsOwn(n: Net, u: Table, request: Request, setup: Setup)
    requires setup.Valid() && Proper(request) && Gained(n.table, u, setup.Ids())
    requires ClientOk(n.table.issued, n.requests, n.sent, setup) && |n.table.issued| == |n.table.promises|
    ensures
      var command := CommandOf(u, |n.table.promises|, request, setup);
      command.Some? ==>
        && Carried(command.value)
        && ClientOk(u.issued, n.requests + [request], n.sent + [Sent(|n.table.promises|, command.value)], setup)
  {
    var slot := u.issued[|n.table.promises|];
    LastOne(u.issued, n.table.issued);
    if slot.Some? {
      var command := CommandOf(u, |n.requests|, request, setup);
      CommandIsCarried(u, |n.requests|, request, setup);
      CommandIsSent(u, n.requests, request, setup);
      ClientSends(n.table.issued, n.requests, n.sent, setup, slot, request, Sent(|n.requests|, command.value));
    }
  }

  lemma StartKeeps(n: Net, f: Flow, setup: Setup, u: Table, request: Request, command: Option<Config>)
    returns (f': Flow)
    requires setup.Valid() && FlowInv(n, f, setup) && |n.table.issued| == |n.table.promises|
    requires Gained(n.table, u, setup.Ids()) && Moved(n.table, u)
    requires command.Some? == u.issued[|n.table.promises|].Some?
    requires command.Some? ==>
      && Carried(command.value)
      && ClientOk(u.issued, n.requests + [request], n.sent + [Sent(|n.table.promises|, command.value)], setup)
    ensures FlowInv(Launch(n, u, request, command), f', setup)
  {
    LastOne(u.issued, n.table.issued);
    if command.Some? {
      AllSentStart(n.table.issued, n.sent, u.issued[|n.table.promises|], [Sent(|n.table.promises|, command.value)]);
      f' := StartSends(n, f, request, setup, u, command.value);
    } else {
      StartFailed(n, f, setup, u, request);
      f' := f;
    }
  }

  lemma LastOne<T>(s: seq<T>, front: seq<T>)
    requires |s| == |front| + 1 && s[..|front|] == front
    ensures s == front + [s[|front|]]
  {
  }

  /** Giving up changes the table only. */
  lemma GiveUpKeeps(n: Net, f: Flow, op: Op, setup: Setup)
    requires setup.Valid() && NetInv(n, f, setup)
    ensures NetInv(Step(n, GiveUp(op), setup), f, setup)
  {
    var u := Next(n.table, CancelEvent(op), setup.timeout, setup.Ids());
    GiveUpMoves(n.table, op, setup.timeout, setup.Ids());
    GiveUpLatest(n.table, op, setup.timeout, setup.Ids());
    DeliveriesMove(n.table, u, n.sent, [], n.log, n.deliveries);
    assert n.sent + [] == n.sent;
    assert u.issued == n.table.issued;
  }

  // ---------- serving ----------

  lemma ServerServe(sent: seq<Sent>, log: seq<Service>, s: Service)
    requires ServerOk(sent, log) && |log| < |sent| && ServedOk(sent[|log|].command, s)
    ensures ServerOk(sent, log + [s])
  {
  }

  lemma DeliveriesServe(t: Table, sent: seq<Sent>, log: seq<Service>, deliveries: seq<Delivery>, s: Service)
    requires DeliveriesOk(t, sent, log, deliveries)
    ensures DeliveriesOk(t, sent, log + [s], deliveries)
  {
    RepliedAppend(log, s);
    forall j | 0 <= j < |deliveries|
      ensures DeliveryOk(t, sent, log + [s], deliveries, j)
    {
      assert DeliveryOk(t, sent, log, deliveries, j);
      assert Replied(log + [s])[j] == Replied(log)[j];
    }
  }

  /** The packet the server parses is the command that was sent. */
  lemma ServerParses(n: Net, command: Config, rest: seq<byte>, answer: Option<seq<byte>>, sends: bool)
    requires WellFormed(command) && (command.Read? || command.Write?)
    ensures
      var p := After(n.serverPacket, Encode(command));
      var replies := answer.Some? && sends;
      var s := Service(Expected(command), answer, replies);
      var m := n.(toServer := rest, serverPacket := p, log := n.log + [s]);
      ServerStep(n, Encode(command), rest, answer, sends)
      == if replies then m.(toClient := n.toClient + Framed(ReplyTo(s.command, answer.value))) else m
  {
    BuildParse(command, n.serverPacket);
  }

  /** Serving a command grows the log and leaves what has been delivered alone. */
  lemma LogGrows(n: Net, f: Flow, setup: Setup, s: Service)
    requires setup.Valid() && FlowInv(n, f, setup) && |n.log| < |n.sent| && ServedOk(n.sent[|n.log|].command, s)
    ensures ServerOk(n.sent, n.log + [s]) && DeliveriesOk(n.table, n.sent, n.log + [s], n.deliveries)
    ensures |n.deliveries| <= |Replied(n.log)|
    ensures Replied(n.log + [s])[|n.deliveries|..]
      == if s.replied then Replied(n.log)[|n.deliveries|..] + [|n.log|] else Replied(n.log)[|n.deliveries|..]
  {
    ServerServe(n.sent, n.log, s);
    DeliveriesServe(n.table, n.sent, n.log, n.deliveries, s);
    NextReplies(n.log, s, |n.deliveries|);
  }

  lemma Served(n: Net, f: Flow, setup: Setup, s: Service, stream: seq<byte>, up: seq<Item>, p: Packet)
    requires setup.Valid() && FlowInv(n, f, setup) && |n.log| < |n.sent| && ServedOk(n.sent[|n.log|].command, s)
    requires UpOk(stream, up, n.sent[|n.log| + 1..]) && !s.replied
    ensures FlowInv(n.(toServer := stream, serverPacket := p, log := n.log + [s]), f.(up := up), setup)
  {
    LogGrows(n, f, setup, s);
    DownLog(n.toClient, f.down, Replied(n.log)[|n.deliveries|..], n.log, s);
  }

  lemma ServedAndReplied(n: Net, f: Flow, setup: Setup, s: Service, stream: seq<byte>, up: seq<Item>, p: Packet,
                         back: seq<byte>, down: seq<Item>)
    requires setup.Valid() && FlowInv(n, f, setup) && |n.log| < |n.sent| && ServedOk(n.sent[|n.log|].command, s)
    requires UpOk(stream, up, n.sent[|n.log| + 1..]) && s.replied && |n.deliveries| <= |Replied(n.log)|
    requires DownOk(back, down, Replied(n.log)[|n.deliveries|..] + [|n.log|], n.log + [s])
    ensures FlowInv(n.(toServer := stream, serverPacket := p, log := n.log + [s], toClient := back),
                    Flow(up, down), setup)
  {
    LogGrows(n, f, setup, s);
  }

  /** The server's next poll takes the next command that was sent, if there is one. */
  lemma NextCommand(n: Net, f: Flow, capacity: nat, setup: Setup) returns (up: seq<Item>)
    requires setup.Valid() && FlowInv(n, f, setup)
    ensures
      var out := Decode(AutoResize, capacity, n.toServer, []);
      && (out.Whole? <==> |n.log| < |n.sent|)
      && (out.Whole? ==>
        var command := n.sent[|n.log|].command;
        && WellFormed(command) && (command.Read? || command.Write?) && out.payload == Encode(command)
        && UpOk(out.rest, up, n.sent[|n.log| + 1..]))
  {
    var todo := n.sent[|n.log|..];
    up := UpTake(capacity, n.toServer, f.up, todo);
    if todo != [] {
      assert SentOk(n.table.issued, n.requests, n.sent[|n.log|], setup);
      assert todo[0] == n.sent[|n.log|] && todo[1..] == n.sent[|n.log| + 1..];
    }
  }

  lemma ServerKeeps(n: Net, f: Flow, e: NetEvent, setup: Setup) returns (f': Flow)
    requires setup.Valid() && FlowInv(n, f, setup) && e.ServerPoll? && ProperEvent(e)
    ensures
      var out := Decode(AutoResize, e.capacity, n.toServer, []);
      FlowInv(if out.Whole? then ServerStep(n, out.payload, out.rest, e.answer, e.sends) else n, f', setup)
  {
    f' := f;
    var up := NextCommand(n, f, e.capacity, setup);
    var out := Decode(AutoResize, e.capacity, n.toServer, []);
    if out.Whole? {
      f' := ServerTakes(n, f, e, setup, n.sent[|n.log|].command, out.rest, up);
    }
  }

  lemma ServerPollKeeps(n: Net, f: Flow, e: NetEvent, setup: Setup) returns (f': Flow)
    requires setup.Valid() && NetInv(n, f, setup) && e.ServerPoll? && ProperEvent(e)
    ensures NetInv(Step(n, e, setup), f', setup)
  {
    ServerPollIs(n, setup, e);
    f' := ServerKeeps(n, f, e, setup);
  }

  lemma ServerPollIs(n: Net, setup: Setup, e: NetEvent)
    requires setup.Valid() && Inv(n.table, setup.Ids()) && e.ServerPoll? && ProperEvent(e)
    ensures
      var out := Decode(AutoResize, e.capacity, n.toServer, []);
      var m := if out.Whole? then ServerStep(n, out.payload, out.rest, e.answer, e.sends) else n;
      Step(n, e, setup) == m && m.table == n.table
  {
  }

  lemma ServerTakes(n: Net, f: Flow, e: NetEvent, setup: Setup, command: Config, stream: seq<byte>, up: seq<Item>)
    returns (f': Flow)
    requires setup.Valid() && FlowInv(n, f, setup) && e.ServerPoll? && ProperEvent(e)
    requires |n.log| < |n.sent| && n.sent[|n.log|].command == command
    requires WellFormed(command) && (command.Read? || command.Write?) && UpOk(stream, up, n.sent[|n.log| + 1..])
    ensures FlowInv(ServerStep(n, Encode(command), stream, e.answer, e.sends), f', setup)
  {
    var p := After(n.serverPacket, Encode(command));
    var s := Service(Expected(command), e.answer, e.answer.Some? && e.sends);
    ServerParses(n, command, stream, e.answer, e.sends);
    if s.replied {
      f' := ServerReplies(n, f, setup, s, stream, up, p);
    } else {
      Served(n, f, setup, s, stream, up, p);
      f' := f.(up := up);
    }
  }

  lemma ReplyIsCarried(sent: Sent, issued: seq<Option<nat>>, requests: seq<Request>, s: Service, setup: Setup)
    requires setup.Valid() && SentOk(issued, requests, sent, setup) && ServedOk(sent.command, s) && s.replied
    ensures Carried(ReplyTo(s.command, s.answer.value))
  {
    ReplyCarried(setup, requests[sent.op], setup.idMin + issued[sent.op].value, s.answer.value);
  }

  lemma ServerReplies(n: Net, f: Flow, setup: Setup, s: Service, stream: seq<byte>, up: seq<Item>, p: Packet)
    returns (f': Flow)
    requires setup.Valid() && FlowInv(n, f, setup) && |n.log| < |n.sent| && ServedOk(n.sent[|n.log|].command, s)
    requires UpOk(stream, up, n.sent[|n.log| + 1..]) && s.replied
    ensures
      FlowInv(n.(toServer := stream, serverPacket := p, log := n.log + [s],
                 toClient := n.toClient + Framed(ReplyTo(s.command, s.answer.value))), f', setup)
  {
    var c := ReplyTo(s.command, s.answer.value);
    var bytes := Framed(c);
    assert SentOk(n.table.issued, n.requests, n.sent[|n.log|], setup);
    ReplyIsCarried(n.sent[|n.log|], n.table.issued, n.requests, s, setup);
    DownReply(n.toClient, f.down, Replied(n.log)[|n.deliveries|..], n.log, s, c, bytes);
    f' := Flow(up, f.down + [Message(c)]);
    ServedAndReplied(n, f, setup, s, stream, up, p, n.toClient + bytes, f'.down);
  }

  // ---------- completing ----------

  /** A reply under the ID of `op` finds `op` in its slot exactly if that is still in flight. */
  lemma OwnSlot(t: Table, op: Op, i: nat, ids: nat)
    requires Inv(t, ids) && op < |t.issued| && t.issued[op] == Some(i) && i < ids
    ensures t.reply[i] == Some(op) <==> InFlight(t, op)
  {
    assert SlotOk(t, i) && Seated(t, op);
  }

  lemma ReplyEffect(t: Table, i: nat, throws: bool, timeout: int, ids: nat)
    requires Inv(t, ids) && i < ids
    ensures t.reply[i].Some? ==> InFlight(t, t.reply[i].value) && t.issued[t.reply[i].value] == Some(i)
    ensures
      var u := Next(t, ReplyEvent(i, throws), timeout, ids);
      && u.issued == t.issued && u.cancelled == t.cancelled
      && u.promises == (if t.reply[i].None? then t.promises
                        else t.promises[t.reply[i].value := Some(if throws then Err(OperationCanceled) else Ok(()))])
  {
    assert SlotOk(t, i);
  }

  lemma ReplyLatest(t: Table, i: nat, throws: bool, timeout: int, ids: nat)
    requires Inv(t, ids) && Latest(t) && i < ids
    ensures Latest(Next(t, ReplyEvent(i, throws), timeout, ids))
  {
    HandlersAreStarted(t, ids);
  }

  /** Taking in the next reply: earlier deliveries stand as they were. */
  lemma DeliveryTaken(t: Table, u: Table, sent: seq<Sent>, log: seq<Service>, deliveries: seq<Delivery>, d: Delivery,
                      j: nat)
    requires DeliveriesOk(t, sent, log, deliveries) && j < |deliveries| < |Replied(log)|
    requires u.issued == t.issued && u.cancelled == t.cancelled && |t.issued| == |t.promises|
    requires d.owner.Some? ==> InFlight(t, d.owner.value)
    requires u.promises == (if d.owner.None? then t.promises
      else t.promises[d.owner.value := Some(if d.throws then Err(OperationCanceled) else Ok(()))])
    ensures DeliveryOk(u, sent, log, deliveries + [d], j)
  {
    assert DeliveryOk(t, sent, log, deliveries, j);
    var op, more := sent[Replied(log)[j]].op, deliveries + [d];
    assert CompletedBy(more, op, j) <==> CompletedBy(deliveries, op, j) by {
      assert forall i :: 0 <= i < j ==> more[i] == deliveries[i];
    }
    assert SentSettled(t, op, deliveries);
    forall i | 0 <= i < |deliveries| && deliveries[i].owner == Some(op)
      ensures t.promises[op].Some?
    {
      assert DeliveryOk(t, sent, log, deliveries, i);
    }
  }

  /** The delivery itself: the operation of the command replied to is completed unless it is no longer in flight. */
  lemma NewDelivery(t: Table, u: Table, sent: seq<Sent>, log: seq<Service>, deliveries: seq<Delivery>, d: Delivery)
    requires DeliveriesOk(t, sent, log, deliveries) && |deliveries| < |Replied(log)|
    requires Taken(t, u, sent, log, Replied(log)[|deliveries|], d)
    ensures DeliveryOk(u, sent, log, deliveries + [d], |deliveries|)
  {
    var k, more := Replied(log)[|deliveries|], deliveries + [d];
    var op := sent[k].op;
    assert SentSettled(t, op, deliveries);
    assert CompletedBy(more, op, |deliveries|) <==> CompletedBy(deliveries, op, |deliveries|) by {
      assert forall i :: 0 <= i < |deliveries| ==> more[i] == deliveries[i];
    }
    forall i | 0 <= i < |deliveries| && deliveries[i].owner == Some(op)
      ensures t.promises[op].Some?
    {
      assert DeliveryOk(t, sent, log, deliveries, i);
    }
  }

  /** What taking in the reply to the k-th command does: the owner of the slot, which is that command's operation
      exactly if it is still in flight, is settled. */
  ghost predicate Taken(t: Table, u: Table, sent: seq<Sent>, log: seq<Service>, k: nat, d: Delivery) {
    && k < |sent| && IsReplyPacket(log, k, d.packet)
    && |t.issued| == |t.promises| && sent[k].op < |t.issued|
    && u.issued == t.issued && u.cancelled == t.cancelled
    && (d.owner == Some(sent[k].op) <==> InFlight(t, sent[k].op))
    && (d.owner.Some? ==>
      && InFlight(t, d.owner.value) && sent[k].op <= d.owner.value
      && t.issued[d.owner.value] == t.issued[sent[k].op])
    && u.promises == (if d.owner.None? then t.promises
      else t.promises[d.owner.value := Some(if d.throws then Err(OperationCanceled) else Ok(()))])
  }

  lemma DeliveriesTake(t: Table, u: Table, sent: seq<Sent>, log: seq<Service>, deliveries: seq<Delivery>, d: Delivery)
    requires DeliveriesOk(t, sent, log, deliveries) && |deliveries| < |Replied(log)|
    requires Taken(t, u, sent, log, Replied(log)[|deliveries|], d)
    ensures DeliveriesOk(u, sent, log, deliveries + [d])
  {
    var more := deliveries + [d];
    forall j | 0 <= j < |more|
      ensures DeliveryOk(u, sent, log, more, j)
    {
      if j < |deliveries| {
        DeliveryTaken(t, u, sent, log, deliveries, d, j);
      } else {
        NewDelivery(t, u, sent, log, deliveries, d);
      }
    }
    forall i, j | 0 <= i < j < |more| && more[i].owner.Some?
      ensures more[i].owner != more[j].owner
    {
      assert DeliveryOk(t, sent, log, deliveries, i);
    }
    forall op: Op | CompletedBy(deliveries, op, |deliveries|) || d.owner == Some(op)
      ensures CompletedBy(more, op, |more|)
    {
      StillCompleted(deliveries, d, op);
    }
    forall k | 0 <= k < |sent|
      ensures SentSettled(u, sent[k].op, more)
    {
      assert SentSettled(t, sent[k].op, deliveries);
    }
  }

  lemma StillCompleted(deliveries: seq<Delivery>, d: Delivery, op: Op)
    requires CompletedBy(deliveries, op, |deliveries|) || d.owner == Some(op)
    ensures CompletedBy(deliveries + [d], op, |deliveries| + 1)
  {
    var more := deliveries + [d];
    if d.owner == Some(op) {
      assert more[|deliveries|].owner == Some(op);
    } else {
      var i :| 0 <= i < |deliveries| && deliveries[i].owner == Some(op);
      assert more[i].owner == Some(op);
    }
  }

  /** The packet the client parses is the reply that was built. */
  lemma ClientParses(n: Net, c: Config, stream: seq<byte>, throws: bool, setup: Setup)
    requires setup.Valid() && Inv(n.table, setup.Ids())
    requires WellFormed(c) && (c.ReadReply? || c.WriteReply?)
    ensures
      ClientStep(n, Encode(c), stream, throws, setup)
      == Dispatch(n.(toClient := stream, clientPacket := After(n.clientPacket, Encode(c))), Expected(c), throws, setup)
  {
    BuildParse(c, n.clientPacket);
  }

  /** Dispatching the reply to the k-th command is taking it in. */
  lemma DispatchTakes(n: Net, c: Config, k: nat, throws: bool, setup: Setup)
    requires setup.Valid() && Inv(n.table, setup.Ids()) && Latest(n.table)
    requires ClientOk(n.table.issued, n.requests, n.sent, setup) && ServerOk(n.sent, n.log) && IsReply(n.log, k, c)
    ensures
      var m := Dispatch(n, Expected(c), throws, setup);
      var d := Delivery(Expected(c), Owner(n.table, Expected(c), setup), throws);
      && m == n.(table := m.table, deliveries := n.deliveries + [d])
      && Taken(n.table, m.table, n.sent, n.log, k, d) && Latest(m.table)
  {
    assert ServedOk(n.sent[k].command, n.log[k]) && SentOk(n.table.issued, n.requests, n.sent[k], setup);
    var op := n.sent[k].op;
    var i := n.table.issued[op].value;
    OwnSlot(n.table, op, i, setup.Ids());
    ReplyEffect(n.table, i, throws, setup.timeout, setup.Ids());
    ReplyLatest(n.table, i, throws, setup.timeout, setup.Ids());
  }

  lemma Delivered(n: Net, f: Flow, setup: Setup, u: Table, d: Delivery, stream: seq<byte>, down: seq<Item>, p: Packet)
    requires setup.Valid() && FlowInv(n, f, setup) && |n.deliveries| < |Replied(n.log)|
    requires Taken(n.table, u, n.sent, n.log, Replied(n.log)[|n.deliveries|], d)
    requires DownOk(stream, down, Replied(n.log)[|n.deliveries| + 1..], n.log)
    ensures FlowInv(n.(table := u, toClient := stream, clientPacket := p, deliveries := n.deliveries + [d]),
                    Flow(f.up, down), setup)
  {
    DeliveriesTake(n.table, u, n.sent, n.log, n.deliveries, d);
  }

  /** The client's next poll takes in the next reply, if there is one. */
  lemma NextReply(n: Net, f: Flow, capacity: nat, setup: Setup) returns (down: seq<Item>, c: Config)
    requires setup.Valid() && FlowInv(n, f, setup)
    ensures
      var out := Decode(AutoResize, capacity, n.toClient, []);
      && |n.deliveries| <= |Replied(n.log)| && (out.Whole? <==> |n.deliveries| < |Replied(n.log)|)
      && (out.Whole? ==>
        && WellFormed(c) && IsReply(n.log, Replied(n.log)[|n.deliveries|], c) && out.payload == Encode(c)
        && DownOk(out.rest, down, Replied(n.log)[|n.deliveries| + 1..], n.log))
  {
    var pending := Replied(n.log)[|n.deliveries|..];
    down := DownTake(capacity, n.toClient, f.down, pending, n.log);
    c := WriteReply([], 0, 0, 0, 0, false, false);
    if pending != [] {
      c := Messages(f.down)[0];
      assert pending[1..] == Replied(n.log)[|n.deliveries| + 1..];
    }
  }

  lemma ClientKeeps(n: Net, f: Flow, e: NetEvent, setup: Setup) returns (f': Flow)
    requires setup.Valid() && NetInv(n, f, setup) && e.ClientPoll?
    ensures
      var out := Decode(AutoResize, e.capacity, n.toClient, []);
      var m := if out.Whole? then ClientStep(n, out.payload, out.rest, e.throws, setup) else n;
      Latest(m.table) && FlowInv(m, f', setup)
  {
    f' := f;
    var down, c := NextReply(n, f, e.capacity, setup);
    var out := Decode(AutoResize, e.capacity, n.toClient, []);
    if out.Whole? {
      f' := Flow(f.up, down);
      ClientTakes(n, f, e, setup, c, out.rest, down);
    }
  }

  lemma ClientPollKeeps(n: Net, f: Flow, e: NetEvent, setup: Setup) returns (f': Flow)
    requires setup.Valid() && NetInv(n, f, setup) && e.ClientPoll?
    ensures NetInv(Step(n, e, setup), f', setup)
  {
    ClientPollIs(n, setup, e);
    f' := ClientKeeps(n, f, e, setup);
  }

  lemma ClientPollIs(n: Net, setup: Setup, e: NetEvent)
    requires setup.Valid() && Inv(n.table, setup.Ids()) && e.ClientPoll?
    ensures
      var out := Decode(AutoResize, e.capacity, n.toClient, []);
      Step(n, e, setup) == if out.Whole? then ClientStep(n, out.payload, out.rest, e.throws, setup) else n
  {
  }

  lemma ClientTakes(n: Net, f: Flow, e: NetEvent, setup: Setup, c: Config, stream: seq<byte>, down: seq<Item>)
    requires setup.Valid() && NetInv(n, f, setup) && e.ClientPoll? && |n.deliveries| < |Replied(n.log)|
    requires IsReply(n.log, Replied(n.log)[|n.deliveries|], c) && WellFormed(c)
    requires DownOk(stream, down, Replied(n.log)[|n.deliveries| + 1..], n.log)
    ensures
      var m := ClientStep(n, Encode(c), stream, e.throws, setup);
      Latest(m.table) && FlowInv(m, Flow(f.up, down), setup)
  {
    ClientParses(n, c, stream, e.throws, setup);
    var p := After(n.clientPacket, Encode(c));
    var v := n.(toClient := stream, clientPacket := p);
    DispatchTakes(v, c, Replied(n.log)[|n.deliveries|], e.throws, setup);
    var d := Delivery(Expected(c), Owner(n.table, Expected(c), setup), e.throws);
    Delivered(n, f, setup, Dispatch(v, Expected(c), e.throws, setup).table, d, stream, down, p);
  }

  // ---------- runs ----------

  lemma BeginKeeps(n: Net, f: Flow, e: NetEvent, setup: Setup) returns (f': Flow)
    requires setup.Valid() && NetInv(n, f, setup) && e.Begin? && ProperEvent(e)
    ensures NetInv(Step(n, e, setup), f', setup)
  {
    var t, ids := n.table, setup.Ids();
    StartGains(t, e.now, e.later, e.send, setup.timeout, ids);
    StartMoves(t, e.now, e.later, e.send, setup.timeout, ids);
    StartLatest(t, e.now, e.later, e.send, setup.timeout, ids);
    var u := Next(t, StartEvent(e.now, e.later, e.send), setup.timeout, ids);
    CommandIsOwn(n, u, e.request, setup);
    f' := StartKeeps(n, f, setup, u, e.request, CommandOf(u, |t.promises|, e.request, setup));
  }

  lemma StepKeeps(n: Net, f: Flow, e: NetEvent, setup: Setup) returns (f': Flow)
    requires setup.Valid() && NetInv(n, f, setup) && ProperEvent(e)
    ensures NetInv(Step(n, e, setup), f', setup)
  {
    match e
    case Begin(_, _, _, _) => f' := BeginKeeps(n, f, e, setup);
    case GiveUp(op) => GiveUpKeeps(n, f, op, setup); f' := f;
    case ServerPoll(_, _, _) => f' := ServerPollKeeps(n, f, e, setup);
    case ClientPoll(_, _) => f' := ClientPollKeeps(n, f, e, setup);
    case ClientTimeCode(code) => f' := ClientTimeCodeKeeps(n, f, code, setup);
    case ServerTimeCode(code) => f' := ServerTimeCodeKeeps(n, f, code, setup);
  }

  lemma {:induction false} RunKeeps(n: Net, f: Flow, events: seq<NetEvent>, setup: Setup) returns (f': Flow)
    requires setup.Valid() && NetInv(n, f, setup)
    requires forall i :: 0 <= i < |events| ==> ProperEvent(events[i])
    ensures NetInv(RunNet(n, events, setup), f', setup)
    decreases |events|
  {
    f' := f;
    if events != [] {
      f' := StepKeeps(n, f, events[0], setup);
      f' := RunKeeps(Step(n, events[0], setup), f', events[1..], setup);
    }
  }

  lemma InitialKeeps(setup: Setup)
    requires setup.Valid()
    ensures NetInv(InitialNet(setup), Flow([], []), setup)
  {
    InitialInv(setup.Ids());
  }

  lemma ReachedKeeps(setup: Setup, events: seq<NetEvent>) returns (f: Flow)
    requires setup.Valid() && forall i :: 0 <= i < |events| ==> ProperEvent(events[i])
    ensures NetInv(Reached(setup, events), f, setup)
  {
    InitialKeeps(setup);
    f := RunKeeps(InitialNet(setup), Flow([], []), events, setup);
  }

  // ---------- every run ----------

  /** The k-th callback at the server was given exactly the packet of the k-th command sent, and the k-th command sent
      is the only one of its operation: no command is lost, repeated, reordered or altered on its way, whatever is given
      up or times out meanwhile. */
  lemma ServedInOrder(setup: Setup, events: seq<NetEvent>)
    requires setup.Valid() && forall i :: 0 <= i < |events| ==> ProperEvent(events[i])
    ensures
      var n := Reached(setup, events);
      && ClientOk(n.table.issued, n.requests, n.sent, setup)
      && ServerOk(n.sent, n.log)
  {
    var f := ReachedKeeps(setup, events);
  }

  /** Replies are taken in in the order they were made, unaltered, and each completes the operation whose command it
      answers if and only if that operation was not given up, did not time out and was not completed by an earlier
      reply. Whatever else it completes is a newer operation with the same ID. */
  lemma OwnReplyExactly(setup: Setup, events: seq<NetEvent>, j: nat)
    requires setup.Valid() && forall i :: 0 <= i < |events| ==> ProperEvent(events[i])
    requires j < |Reached(setup, events).deliveries|
    ensures
      var n := Reached(setup, events);
      && |n.deliveries| <= |Replied(n.log)|
      && var d, k := n.deliveries[j], Replied(n.log)[j];
         && k < |n.sent| && IsReplyPacket(n.log, k, d.packet)
         && (d.owner == Some(n.sent[k].op) <==> !Missed(n.table, n.deliveries, j, n.sent[k].op))
         && (d.owner.Some? ==> OwnerOk(n.table, d, n.sent[k].op))
  {
    var f := ReachedKeeps(setup, events);
    var n := Reached(setup, events);
    assert DeliveryOk(n.table, n.sent, n.log, n.deliveries, j);
  }

  /** No operation completes twice, and an operation that succeeded was completed by a reply. */
  lemma CompletedOnce(setup: Setup, events: seq<NetEvent>)
    requires setup.Valid() && forall i :: 0 <= i < |events| ==> ProperEvent(events[i])
    ensures
      var n := Reached(setup, events);
      && (forall i, j :: 0 <= i < j < |n.deliveries| && n.deliveries[i].owner.Some? ==>
           n.deliveries[i].owner != n.deliveries[j].owner)
      && (forall op: Op :: op < |n.table.promises| && n.table.promises[op] == Some(Ok(())) ==>
           CompletedBy(n.deliveries, op, |n.deliveries|))
  {
    var f := ReachedKeeps(setup, events);
  }

  // ---------- runs in which nothing is given up or times out ----------

  predicate Undisturbed(t: Table, sent: seq<Sent>) {
    forall k :: 0 <= k < |sent| && sent[k].op < |t.promises| ==>
      sent[k].op !in t.cancelled && t.promises[sent[k].op] != Some(Err(TimedOut))
  }

  /** Then every reply completes its own operation. */
  lemma {:induction false} OwnReplies(t: Table, sent: seq<Sent>, log: seq<Service>, deliveries: seq<Delivery>, j: nat)
    requires DeliveriesOk(t, sent, log, deliveries) && Undisturbed(t, sent) && j < |deliveries|
    requires forall a, b :: 0 <= a < b < |sent| ==> sent[a].op < sent[b].op
    ensures Replied(log)[j] < |sent| && deliveries[j].owner == Some(sent[Replied(log)[j]].op)
  {
    assert DeliveryOk(t, sent, log, deliveries, j);
    var op := sent[Replied(log)[j]].op;
    assert SentSettled(t, op, deliveries);
    if CompletedBy(deliveries, op, j) {
      var i :| 0 <= i < j && deliveries[i].owner == Some(op);
      OwnReplies(t, sent, log, deliveries, i);
      RepliedInOrder(log);
    }
  }

  /** The command is the request's, field by field, under the given ID: routing bytes, reply address and logical
      addresses, the instruction (0x40 command, 0x20 write, 0x10 verify, 0x08 reply, 0x04 increment, and the words of
      reply address), key and extended address zero. */
  predicate Fulfils(request: Request, setup: Setup, tid: int, command: Parsed) {
    match request
    case WriteRequest(t, address, data) =>
      && command.WriteCommand? && command.targetPath == t.path && command.replyAddress == t.reply
      && command.targetLogical == t.logical && command.initiatorLogical == setup.initiator
      && command.instruction as int == 0x6C + (if setup.verify then 0x10 else 0) + (|t.reply| + 3) / 4
      && command.key == 0 && command.transactionId as int == tid && command.extendedAddress == 0
      && command.address == address && command.dataLength == |data| && command.data == data
    case ReadRequest(t, address, length) =>
      && command.ReadCommand? && command.targetPath == t.path && command.replyAddress == t.reply
      && command.targetLogical == t.logical && command.initiatorLogical == setup.initiator
      && command.instruction as int == 0x4C + (|t.reply| + 3) / 4
      && command.key == 0 && command.transactionId as int == tid && command.extendedAddress == 0
      && command.address == address && command.readLength == length
  }

  /** The packet is a reply to the request, field by field: the target's reply address in front, the target's logical
      address first and the initiator's second, status zero, the instruction (0x20 write, 0x10 verify, 0x08 reply, 0x04
      increment), the request's ID, and for reads the data. */
  predicate Answers(request: Request, setup: Setup, tid: int, answer: seq<byte>, packet: Parsed) {
    && (request.WriteRequest? ==>
      && packet.WriteAnswer? && packet.replyAddress == request.target.reply
      && packet.initiatorLogical == request.target.logical && packet.targetLogical == setup.initiator
      && packet.instruction == 0x3C && packet.status == 0 && packet.transactionId as int == tid)
    && (request.ReadRequest? ==>
      && packet.ReadAnswer? && packet.replyAddress == request.target.reply
      && packet.initiatorLogical == request.target.logical && packet.targetLogical == setup.initiator
      && packet.instruction == 0x0C && packet.status == 0 && packet.transactionId as int == tid
      && packet.dataLength == |answer| && packet.data == answer)
  }

  lemma OwnCommand(issued: seq<Option<nat>>, requests: seq<Request>, s: Sent, service: Service, setup: Setup)
    requires setup.Valid() && SentOk(issued, requests, s, setup) && ServedOk(s.command, service)
    ensures Fulfils(requests[s.op], setup, setup.idMin + issued[s.op].value, service.command)
  {
  }

  lemma OwnAnswer(request: Request, setup: Setup, tid: int, command: Parsed, answer: seq<byte>)
    requires Fulfils(request, setup, tid, command)
    ensures Answers(request, setup, tid, answer, Expected(ReplyTo(command, answer)))
  {
  }

  lemma OwnRequest(issued: seq<Option<nat>>, requests: seq<Request>, sent: seq<Sent>, log: seq<Service>,
                   packet: Parsed, k: nat, setup: Setup)
    requires setup.Valid() && ClientOk(issued, requests, sent, setup) && ServerOk(sent, log)
    requires k < |sent| && IsReplyPacket(log, k, packet)
    ensures sent[k].op < |requests| && sent[k].op < |issued| && issued[sent[k].op].Some?
    ensures
      var tid := setup.idMin + issued[sent[k].op].value;
      && Fulfils(requests[sent[k].op], setup, tid, log[k].command)
      && Answers(requests[sent[k].op], setup, tid, log[k].answer.value, packet)
  {
    assert SentOk(issued, requests, sent[k], setup) && ServedOk(sent[k].command, log[k]);
    OwnCommand(issued, requests, sent[k], log[k], setup);
    OwnAnswer(requests[sent[k].op], setup, setup.idMin + issued[sent[k].op].value, log[k].command,
              log[k].answer.value);
  }

  /** The one service of an operation's request: the k-th command sent is the operation's only one, the k-th callback
      got its address and its data or length, and returned normally. */
  ghost predicate ServedBy(n: Net, op: Op, k: nat, setup: Setup) {
    && op < |n.requests| && op < |n.table.issued| && n.table.issued[op].Some? && k < |n.log| <= |n.sent|
    && (forall j :: 0 <= j < |n.sent| ==> (n.sent[j].op == op <==> j == k))
    && n.log[k].answer.Some?
    && Fulfils(n.requests[op], setup, setup.idMin + n.table.issued[op].value, n.log[k].command)
  }

  /** In every run the k-th callback at the server was given its operation's request, field by field. */
  lemma RequestsServed(setup: Setup, events: seq<NetEvent>, k: nat)
    requires setup.Valid() && forall i :: 0 <= i < |events| ==> ProperEvent(events[i])
    requires k < |Reached(setup, events).log|
    ensures
      var n := Reached(setup, events);
      && k < |n.sent| && n.sent[k].op < |n.requests| && n.sent[k].op < |n.table.issued|
      && n.table.issued[n.sent[k].op].Some?
      && Fulfils(n.requests[n.sent[k].op], setup, setup.idMin + n.table.issued[n.sent[k].op].value, n.log[k].command)
  {
    var f := ReachedKeeps(setup, events);
    var n := Reached(setup, events);
    assert SentOk(n.table.issued, n.requests, n.sent[k], setup) && ServedOk(n.sent[k].command, n.log[k]);
    OwnCommand(n.table.issued, n.requests, n.sent[k], n.log[k], setup);
  }

  /** In every run the j-th packet the client takes in is the reply to the operation whose command it answers, field by
      field, with the answer of that command's callback. */
  lemma RepliesAnswer(setup: Setup, events: seq<NetEvent>, j: nat)
    requires setup.Valid() && forall i :: 0 <= i < |events| ==> ProperEvent(events[i])
    requires j < |Reached(setup, events).deliveries|
    ensures
      var n := Reached(setup, events);
      && |n.deliveries| <= |Replied(n.log)|
      && var k := Replied(n.log)[j];
         && k < |n.sent| && k < |n.log| && n.log[k].answer.Some?
         && n.sent[k].op < |n.requests| && n.sent[k].op < |n.table.issued| && n.table.issued[n.sent[k].op].Some?
         && Answers(n.requests[n.sent[k].op], setup, setup.idMin + n.table.issued[n.sent[k].op].value,
                    n.log[k].answer.value, n.deliveries[j].packet)
  {
    var f := ReachedKeeps(setup, events);
    var n := Reached(setup, events);
    assert DeliveryOk(n.table, n.sent, n.log, n.deliveries, j);
    OwnRequest(n.table.issued, n.requests, n.sent, n.log, n.deliveries[j].packet, Replied(n.log)[j], setup);
  }

  /** The j-th reply taken in completed `op`, and answered its own request; or it answered an older operation with the
      same ID that had missed it. */
  ghost predicate CompletedWith(n: Net, op: Op, j: nat, setup: Setup)
    requires j < |n.deliveries| <= |Replied(n.log)|
  {
    var d, k := n.deliveries[j], Replied(n.log)[j];
    && d.owner == Some(op) && k < |n.sent|
    && (if n.sent[k].op == op then
          && ServedBy(n, op, k, setup)
          && Answers(n.requests[op], setup, setup.idMin + n.table.issued[op].value, n.log[k].answer.value, d.packet)
        else
          && n.sent[k].op < op < |n.table.issued| && n.table.issued[n.sent[k].op] == n.table.issued[op]
          && Missed(n.table, n.deliveries, j, n.sent[k].op))
  }

  /** In every run, an operation that succeeded was carried out (a write's data reached on_write exactly once; a read's
      completion was given exactly the bytes that on_read returned for its address and length), or was completed by the
      reply to an older operation with the same ID that had been given up, had timed out or was already completed. */
  lemma SuccessMeansReply(setup: Setup, events: seq<NetEvent>, op: Op)
    requires setup.Valid() && forall i :: 0 <= i < |events| ==> ProperEvent(events[i])
    requires
      var n := Reached(setup, events);
      op < |n.table.promises| && n.table.promises[op] == Some(Ok(()))
    ensures
      var n := Reached(setup, events);
      |n.deliveries| <= |Replied(n.log)| && exists j: nat :: j < |n.deliveries| && CompletedWith(n, op, j, setup)
  {
    var f := ReachedKeeps(setup, events);
    var n := Reached(setup, events);
    assert CompletedBy(n.deliveries, op, |n.deliveries|);
    var j: nat :| j < |n.deliveries| && n.deliveries[j].owner == Some(op);
    Succeeded(n, op, j, setup);
  }

  lemma Succeeded(n: Net, op: Op, j: nat, setup: Setup)
    requires setup.Valid() && ClientOk(n.table.issued, n.requests, n.sent, setup) && ServerOk(n.sent, n.log)
    requires DeliveriesOk(n.table, n.sent, n.log, n.deliveries)
    requires j < |n.deliveries| && n.deliveries[j].owner == Some(op)
    ensures CompletedWith(n, op, j, setup)
  {
    assert DeliveryOk(n.table, n.sent, n.log, n.deliveries, j);
    OwnRequest(n.table.issued, n.requests, n.sent, n.log, n.deliveries[j].packet, Replied(n.log)[j], setup);
  }

  /** Where nothing was given up or timed out, an operation that succeeded was carried out. */
  lemma SuccessMeansDone(setup: Setup, events: seq<NetEvent>, op: Op)
    requires setup.Valid() && forall i :: 0 <= i < |events| ==> ProperEvent(events[i])
    requires
      var n := Reached(setup, events);
      Undisturbed(n.table, n.sent) && op < |n.table.promises| && n.table.promises[op] == Some(Ok(()))
    ensures
      var n := Reached(setup, events);
      exists k: nat, j: nat ::
        && j < |n.deliveries| && n.deliveries[j].owner == Some(op) && ServedBy(n, op, k, setup)
        && (n.requests[op].ReadRequest? ==>
             n.deliveries[j].packet.ReadAnswer? && n.deliveries[j].packet.data == n.log[k].answer.value)
  {
    SuccessMeansReply(setup, events, op);
    var f := ReachedKeeps(setup, events);
    var n := Reached(setup, events);
    var j: nat :| j < |n.deliveries| && CompletedWith(n, op, j, setup);
    OwnReplies(n.table, n.sent, n.log, n.deliveries, j);
    assert ServedBy(n, op, Replied(n.log)[j], setup);
  }

  /** Allocation at this moment needs no expiry. */
  predicate NoExpiry(t: Table, now: int, timeout: int) {
    LowestFree(t.available, 0) < |t.available| || FirstExpired(t, now, timeout, 0) == |t.lastUsed|
  }

  /** Nothing is given up and no start needs an expiry. */
  ghost predicate Calm(n: Net, events: seq<NetEvent>, setup: Setup)
    requires setup.Valid() && Inv(n.table, setup.Ids())
    requires forall i :: 0 <= i < |events| ==> ProperEvent(events[i])
    decreases |events|
  {
    events == [] ||
    (!events[0].GiveUp? && (events[0].Begin? ==> NoExpiry(n.table, events[0].now, setup.timeout))
     && Calm(Step(n, events[0], setup), events[1..], setup))
  }

  lemma StartCalm(t: Table, now: int, later: int, send: TransactionTable.Outcome, timeout: int, ids: nat)
    requires Inv(t, ids) && NoExpiry(t, now, timeout)
    ensures
      var u := Next(t, StartEvent(now, later, send), timeout, ids);
      Gained(t, u, ids) && u.promises[..|t.promises|] == t.promises
  {
    HandlersAreStarted(t, ids);
  }

  lemma BeginCalm(n: Net, e: NetEvent, setup: Setup)
    requires setup.Valid() && Inv(n.table, setup.Ids()) && Undisturbed(n.table, n.sent)
    requires forall k :: 0 <= k < |n.sent| ==> n.sent[k].op < |n.table.promises|
    requires e.Begin? && ProperEvent(e) && NoExpiry(n.table, e.now, setup.timeout)
    ensures Undisturbed(Step(n, e, setup).table, Step(n, e, setup).sent)
  {
    StartCalm(n.table, e.now, e.later, e.send, setup.timeout, setup.Ids());
    var t, m := n.table, Step(n, e, setup);
    forall k | 0 <= k < |m.sent|
      ensures m.sent[k].op !in m.table.cancelled && m.table.promises[m.sent[k].op] != Some(Err(TimedOut))
    {
      if k < |n.sent| {
        assert m.sent[k] == n.sent[k] && m.table.promises[..|t.promises|][n.sent[k].op] == t.promises[n.sent[k].op];
      }
    }
  }

  lemma ReplyCalm(n: Net, packet: Parsed, throws: bool, setup: Setup)
    requires setup.Valid() && Inv(n.table, setup.Ids()) && Undisturbed(n.table, n.sent)
    ensures Undisturbed(Dispatch(n, packet, throws, setup).table, Dispatch(n, packet, throws, setup).sent)
  {
    if (packet.ReadAnswer? || packet.WriteAnswer?) && setup.idMin <= packet.transactionId < setup.idMax {
      ReplyEffect(n.table, packet.transactionId - setup.idMin, throws, setup.timeout, setup.Ids());
    }
  }

  lemma StepCalm(n: Net, e: NetEvent, setup: Setup)
    requires setup.Valid() && Inv(n.table, setup.Ids()) && Undisturbed(n.table, n.sent) && ProperEvent(e)
    requires forall k :: 0 <= k < |n.sent| ==> n.sent[k].op < |n.table.promises|
    requires !e.GiveUp? && (e.Begin? ==> NoExpiry(n.table, e.now, setup.timeout))
    ensures Undisturbed(Step(n, e, setup).table, Step(n, e, setup).sent)
  {
    match e
    case Begin(_, _, _, _) => BeginCalm(n, e, setup);
    case ServerPoll(_, _, _) =>
    case ClientPoll(capacity, throws) =>
      var out := Decode(AutoResize, capacity, n.toClient, []);
      if out.Whole? {
        var p := After(n.clientPacket, out.payload);
        if p.kind.Some? {
          ReplyCalm(n.(toClient := out.rest, clientPacket := p), View(p), throws, setup);
        }
      }
    case ClientTimeCode(_) =>
    case ServerTimeCode(_) =>
  }

  lemma {:induction false} RunCalm(n: Net, f: Flow, events: seq<NetEvent>, setup: Setup)
    requires setup.Valid() && NetInv(n, f, setup) && Undisturbed(n.table, n.sent)
    requires forall i :: 0 <= i < |events| ==> ProperEvent(events[i])
    requires Calm(n, events, setup)
    ensures Undisturbed(RunNet(n, events, setup).table, RunNet(n, events, setup).sent)
    decreases |events|
  {
    if events != [] {
      forall k | 0 <= k < |n.sent|
        ensures n.sent[k].op < |n.table.promises|
      {
        assert SentSettled(n.table, n.sent[k].op, n.deliveries);
      }
      StepCalm(n, events[0], setup);
      var f' := StepKeeps(n, f, events[0], setup);
      RunCalm(Step(n, events[0], setup), f', events[1..], setup);
    }
  }

  /** In a run without cancellation or expiry nothing is disturbed; every reply then completes its own operation. */
  lemma CalmRunsAreUndisturbed(setup: Setup, events: seq<NetEvent>)
    requires setup.Valid() && forall i :: 0 <= i < |events| ==> ProperEvent(events[i])
    requires Inv(InitialNet(setup).table, setup.Ids()) && Calm(InitialNet(setup), events, setup)
    ensures
      var n := Reached(setup, events);
      && Undisturbed(n.table, n.sent) && |n.deliveries| <= |Replied(n.log)|
      && forall j :: 0 <= j < |n.deliveries| ==>
           var k := Replied(n.log)[j];
           k < |n.sent| && n.deliveries[j].owner == Some(n.sent[k].op)
  {
    InitialKeeps(setup);
    RunCalm(InitialNet(setup), Flow([], []), events, setup);
    var f := ReachedKeeps(setup, events);
    var n := Reached(setup, events);
    forall j | 0 <= j < |n.deliveries|
      ensures Replied(n.log)[j] < |n.sent| && n.deliveries[j].owner == Some(n.sent[Replied(n.log)[j]].op)
    {
      OwnReplies(n.table, n.sent, n.log, n.deliveries, j);
    }
  }
}
