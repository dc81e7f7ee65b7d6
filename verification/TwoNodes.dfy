/** A client node and a server node joined by two FIFO byte streams, as a step system: callers start operations and give
    up on them, both nodes poll, time codes go both ways. */
module TwoNodes {
  import opened Bytes
  import opened Packets
  import opened PacketParsing
  import opened RoundTrip
  import opened Framing
  import opened Sending
  import opened Transport
  import opened TransactionTable
  import opened Polling

  /** What the two nodes are configured with: the client's IDs are those from idMin up to, not including, idMax. */
  datatype Setup = Setup(idMin: uint16, idMax: uint16, timeout: int, initiator: byte, verify: bool) {
    predicate Valid() {
      idMin <= idMax
    }

    function Ids(): nat
      requires Valid()
    {
      idMax - idMin
    }
  }

  /** Addresses and sizes for which a request travels unharmed. */
  predicate Proper(request: Request) {
    && Routing(request.target.path) && |request.target.path| < 0x7000_0000
    && request.target.logical >= FIRST_LOGICAL_ADDRESS
    && |request.target.reply| <= 12 && NoLeadingZero(request.target.reply) && Routing(request.target.reply)
    && (if request.WriteRequest? then |request.data| else request.length) < 0x100_0000
  }

  // ---------- the system ----------

  /** A command that went out, and the operation it went out for. */
  datatype Sent = Sent(op: Op, command: Config)

  /** One call of on_read or on_write: the packet it was given, what it returned (nothing if it threw), and whether the
      reply went out. */
  datatype Service = Service(command: Parsed, answer: Option<seq<byte>>, replied: bool)

  /** One reply taken in by the client: the packet, the operation it completed, if any, and whether the user's callback
      threw. */
  datatype Delivery = Delivery(packet: Parsed, owner: Option<Op>, throws: bool)

  datatype Net = Net(
    table: Table, requests: seq<Request>, sent: seq<Sent>, deliveries: seq<Delivery>, clientPacket: Packet,
    toServer: seq<byte>, toClient: seq<byte>,
    serverPacket: Packet, log: seq<Service>)

  /** The size of a receive buffer is arbitrary at every poll: it may grow, so it does not matter. */
  datatype NetEvent =
    | Begin(request: Request, now: int, later: int, send: TransactionTable.Outcome)
    | GiveUp(op: Op)
    | ServerPoll(capacity: nat, answer: Option<seq<byte>>, sends: bool)
    | ClientPoll(capacity: nat, throws: bool)
    | ClientTimeCode(code: byte)
    | ServerTimeCode(code: byte)

  predicate ProperEvent(e: NetEvent) {
    && (e.Begin? ==> Proper(e.request))
    && (e.ServerPoll? && e.answer.Some? ==> |e.answer.value| < 0x100_0000)
  }

  function InitialNet(setup: Setup): Net
    requires setup.Valid()
  {
    Net(Initial(setup.Ids()), [], [], [], EMPTY_PACKET, [], [], EMPTY_PACKET, [])
  }

  /** The table has gained one operation; its promise is open exactly if its caller was told an ID. */
  predicate Gained(t: Table, u: Table, ids: nat) {
    && |u.promises| == |u.issued| == |t.promises| + 1
    && u.cancelled == t.cancelled && u.issued[..|t.promises|] == t.issued
    && (u.issued[|t.promises|].Some? ==> u.issued[|t.promises|].value < ids && u.promises[|t.promises|].None?)
    && (u.issued[|t.promises|].None? ==> u.promises[|t.promises|].Some? && u.promises[|t.promises|].value.Err?)
  }

  /** The command of operation `op` under the ID its caller was told, if any. */
  function CommandOf(u: Table, op: Op, request: Request, setup: Setup): (command: Option<Config>)
    requires setup.Valid() && Proper(request) && op < |u.issued|
    requires u.issued[op].Some? ==> u.issued[op].value < setup.Ids()
    ensures command.Some? == u.issued[op].Some? && (command.Some? ==> Buildable(command.value))
  {
    if u.issued[op].None? then None
    else Some(CommandFor(request, setup.initiator, setup.verify, setup.idMin + u.issued[op].value))
  }

  /** A start that takes the table to u; the command, if there is one, goes out to the server. */
  function Launch(n: Net, u: Table, request: Request, command: Option<Config>): Net
    requires command.Some? ==> Buildable(command.value)
  {
    var m := n.(table := u, requests := n.requests + [request]);
    if command.None? then m
    else m.(sent := n.sent + [Sent(|n.table.promises|, command.value)], toServer := n.toServer + Framed(command.value))
  }

  /** The server's poll: the callback for the command's kind is called, and its result answered. */
  function ServerStep(n: Net, payload: seq<byte>, rest: seq<byte>, answer: Option<seq<byte>>, sends: bool): Net {
    var p := After(n.serverPacket, payload);
    var m := n.(toServer := rest, serverPacket := p);
    if Verdict(payload) != Success || p.kind.None? then m else Serve(m, View(p), answer, sends)
  }

  /** The server's poll once a packet is parsed. */
  function Serve(n: Net, command: Parsed, answer: Option<seq<byte>>, sends: bool): Net {
    if !command.ReadCommand? && !command.WriteCommand? then n
    else if answer.None? || !sends then n.(log := n.log + [Service(command, answer, false)])
    else n.(log := n.log + [Service(command, answer, true)],
            toClient := n.toClient + Framed(ReplyTo(command, answer.value)))
  }

  /** The operation whose handler sits in the slot of a reply's ID. */
  function Owner(t: Table, packet: Parsed, setup: Setup): Option<Op>
    requires setup.Valid() && Shaped(t, setup.Ids()) && (packet.ReadAnswer? || packet.WriteAnswer?)
  {
    if setup.idMin <= packet.transactionId < setup.idMax then t.reply[packet.transactionId - setup.idMin] else None
  }

  /** The client's poll once a packet is parsed: a reply whose ID is in range and whose slot has a handler completes
      that slot's operation. */
  ghost function Dispatch(n: Net, packet: Parsed, throws: bool, setup: Setup): Net
    requires setup.Valid() && Inv(n.table, setup.Ids())
  {
    if !packet.ReadAnswer? && !packet.WriteAnswer? then n
    else
      var m := n.(deliveries := n.deliveries + [Delivery(packet, Owner(n.table, packet, setup), throws)]);
      if packet.transactionId < setup.idMin || packet.transactionId >= setup.idMax then m
      else
        var slot := packet.transactionId - setup.idMin;
        m.(table := Next(n.table, ReplyEvent(slot, throws), setup.timeout, setup.Ids()))
  }

  /** The client's poll: parse, then dispatch. */
  ghost function ClientStep(n: Net, payload: seq<byte>, rest: seq<byte>, throws: bool, setup: Setup): Net
    requires setup.Valid() && Inv(n.table, setup.Ids())
  {
    var p := After(n.clientPacket, payload);
    var m := n.(toClient := rest, clientPacket := p);
    if Verdict(payload) != Success || p.kind.None? then m else Dispatch(m, View(p), throws, setup)
  }

  lemma ClientStepInv(n: Net, payload: seq<byte>, rest: seq<byte>, throws: bool, setup: Setup)
    requires setup.Valid() && Inv(n.table, setup.Ids())
    ensures Inv(ClientStep(n, payload, rest, throws, setup).table, setup.Ids())
  {
    forall slot: nat
      ensures Inv(Next(n.table, ReplyEvent(slot, throws), setup.timeout, setup.Ids()), setup.Ids())
    {
      NextInv(n.table, ReplyEvent(slot, throws), setup.timeout, setup.Ids());
    }
  }

  /** One step. A poll that finds no complete packet keeps waiting. */
  ghost function Step(n: Net, e: NetEvent, setup: Setup): (m: Net)
    requires setup.Valid() && Inv(n.table, setup.Ids()) && ProperEvent(e)
    ensures Inv(m.table, setup.Ids())
  {
    match e
    case Begin(_, now, later, send) =>
      NextInv(n.table, StartEvent(now, later, send), setup.timeout, setup.Ids());
      StartGains(n.table, now, later, send, setup.timeout, setup.Ids());
      var u := Next(n.table, StartEvent(now, later, send), setup.timeout, setup.Ids());
      Launch(n, u, e.request, CommandOf(u, |n.table.promises|, e.request, setup))
    case GiveUp(op) =>
      NextInv(n.table, CancelEvent(op), setup.timeout, setup.Ids());
      n.(table := Next(n.table, CancelEvent(op), setup.timeout, setup.Ids()))
    case ServerPoll(capacity, answer, sends) =>
      var out := Decode(AutoResize, capacity, n.toServer, []);
      if out.Whole? then ServerStep(n, out.payload, out.rest, answer, sends) else n
    case ClientPoll(capacity, throws) =>
      var out := Decode(AutoResize, capacity, n.toClient, []);
      if out.Whole? then
        ClientStepInv(n, out.payload, out.rest, throws, setup);
        ClientStep(n, out.payload, out.rest, throws, setup)
      else n
    case ClientTimeCode(code) => n.(toServer := n.toServer + Render(Time(TIME_CODE, code)))
    case ServerTimeCode(code) => n.(toClient := n.toClient + Render(Time(TIME_CODE, code)))
  }

  lemma StartGains(t: Table, now: int, later: int, send: TransactionTable.Outcome, timeout: int, ids: nat)
    requires Inv(t, ids)
    ensures Gained(t, Next(t, StartEvent(now, later, send), timeout, ids), ids)
  {
    HandlersAreStarted(t, ids);
  }

  ghost function RunNet(n: Net, events: seq<NetEvent>, setup: Setup): (m: Net)
    requires setup.Valid() && Inv(n.table, setup.Ids())
    requires forall i :: 0 <= i < |events| ==> ProperEvent(events[i])
    ensures Inv(m.table, setup.Ids())
    decreases |events|
  {
    if events == [] then n else RunNet(Step(n, events[0], setup), events[1..], setup)
  }

  /** The state after a run from the beginning. */
  ghost function Reached(setup: Setup, events: seq<NetEvent>): Net
    requires setup.Valid() && forall i :: 0 <= i < |events| ==> ProperEvent(events[i])
  {
    InitialInv(setup.Ids());
    RunNet(InitialNet(setup), events, setup)
  }

  // ---------- the steps are those of the node's methods ----------

  /** The contract of `Node.Poll` for a server determines the whole step: stream, parser record, log and what is sent
      back. */
  lemma ServerStepIsPoll(n: Net, capacity: nat, answer: Option<seq<byte>>, throws: bool, p: Packet, incoming: seq<byte>,
                         t: Table, u: Table, sent: seq<byte>, setup: Setup, o: Outlet, closed: bool,
                         r: Result<bool, Errc>)
    requires setup.Valid() && Inv(n.table, setup.Ids()) && ProperEvent(ServerPoll(capacity, answer, r.Ok?))
    requires
      var out := Decode(AutoResize, capacity, n.toServer, []);
      && out.Whole?
      && Polled(out, false, n.serverPacket, p, incoming, t, u, n.toClient, sent, setup.idMin, setup.idMax, o, closed,
                answer, throws, r)
      && (Verdict(out.payload) == Success ==> View(p).ReadCommand? || View(p).WriteCommand?)
    ensures
      var good := Verdict(Decode(AutoResize, capacity, n.toServer, []).payload) == Success;
      && u == t
      && Step(n, ServerPoll(capacity, answer, r.Ok?), setup)
         == n.(toServer := incoming, serverPacket := p, toClient := sent,
               log := n.log + if good then [Service(View(p), answer, r.Ok?)] else [])
  {
    assert n.log + [] == n.log;
  }

  /** The same for a client that takes in a reply: stream, parser record, table and deliveries. */
  lemma ClientStepIsPoll(n: Net, capacity: nat, answer: Option<seq<byte>>, throws: bool, p: Packet,
                         incoming: seq<byte>, u: Table, sent: seq<byte>, setup: Setup, o: Outlet, closed: bool,
                         r: Result<bool, Errc>)
    requires setup.Valid() && Inv(n.table, setup.Ids())
    requires
      var out := Decode(AutoResize, capacity, n.toClient, []);
      && out.Whole?
      && Polled(out, false, n.clientPacket, p, incoming, n.table, u, n.toServer, sent, setup.idMin, setup.idMax,
                o, closed, answer, throws, r)
      && (Verdict(out.payload) == Success ==> View(p).ReadAnswer? || View(p).WriteAnswer?)
    ensures
      var good := Verdict(Decode(AutoResize, capacity, n.toClient, []).payload) == Success;
      && sent == n.toServer
      && Step(n, ClientPoll(capacity, throws), setup)
         == n.(toClient := incoming, clientPacket := p, table := u,
               deliveries := n.deliveries
                 + if good then [Delivery(View(p), Owner(n.table, View(p), setup), throws)] else [])
  {
    var out := Decode(AutoResize, capacity, n.toClient, []);
    assert n.deliveries + [] == n.deliveries;
    if Verdict(out.payload) == Success {
      DispatchIsHandled(n.(toClient := incoming, clientPacket := p), p, answer, throws, u, sent, setup, o, r);
    }
  }

  lemma DispatchIsHandled(n: Net, p: Packet, answer: Option<seq<byte>>, throws: bool, u: Table, sent: seq<byte>,
                          setup: Setup, o: Outlet, r: Result<bool, Errc>)
    requires setup.Valid() && Inv(n.table, setup.Ids())
    requires p.kind.Some? && (View(p).ReadAnswer? || View(p).WriteAnswer?)
    requires Handled(p, n.table, u, n.toServer, sent, setup.idMin, setup.idMax, o, answer, throws, r)
    ensures sent == n.toServer
    ensures
      Dispatch(n, View(p), throws, setup)
      == n.(table := u, deliveries := n.deliveries + [Delivery(View(p), Owner(n.table, View(p), setup), throws)])
  {
    HandlersAreStarted(n.table, setup.Ids());
  }

  /** The contract of `Node.Start` determines the whole step of a start. */
  lemma BeginIsStart(n: Net, request: Request, now: int, later: int, send: TransactionTable.Outcome, u: Table,
                     op: Op, transactionId: Option<int>, sent: seq<byte>, setup: Setup, o: Outlet)
    requires setup.Valid() && Inv(n.table, setup.Ids()) && Proper(request)
    requires Started(n.table, u, op, transactionId, send, now, later, setup.timeout, setup.idMin, n.toServer, sent,
                     request, setup.initiator, setup.verify, o)
    ensures op == |n.table.promises| < |u.issued| && (u.issued[op].Some? ==> u.issued[op].value < setup.Ids())
    ensures
      var command := CommandOf(u, op, request, setup);
      Step(n, Begin(request, now, later, send), setup)
      == n.(table := u, requests := n.requests + [request], toServer := sent,
            sent := n.sent + if command.None? then [] else [Sent(op, command.value)])
  {
    StartGains(n.table, now, later, send, setup.timeout, setup.Ids());
    var command := CommandOf(u, op, request, setup);
    if command.Some? {
      CommandIs(u, op, transactionId.value, request, setup);
      GoesOutAs(n.toServer, sent, request, setup.initiator, setup.verify, transactionId.value, command.value);
    } else {
      assert n.toServer + [] == n.toServer;
    }
    LaunchedIs(n, u, request, command, sent);
  }

  lemma CommandIs(u: Table, op: Op, tid: int, request: Request, setup: Setup)
    requires setup.Valid() && Proper(request) && op < |u.issued|
    requires u.issued[op].Some? && u.issued[op].value < setup.Ids() && tid == setup.idMin + u.issued[op].value
    ensures CommandOf(u, op, request, setup) == Some(CommandFor(request, setup.initiator, setup.verify, tid))
  {
  }

  lemma GoesOutAs(sent: seq<byte>, sent': seq<byte>, request: Request, initiator: byte, verify: bool, tid: int,
                  c: Config)
    requires CommandGoesOut(sent, sent', request, initiator, verify, tid)
    requires c == CommandFor(request, initiator, verify, tid)
    ensures sent' == sent + Framed(c)
  {
  }

  lemma LaunchedIs(n: Net, u: Table, request: Request, command: Option<Config>, sent: seq<byte>)
    requires command.Some? ==> Buildable(command.value)
    requires sent == n.toServer + if command.None? then [] else Framed(command.value)
    ensures
      Launch(n, u, request, command)
      == n.(table := u, requests := n.requests + [request], toServer := sent,
            sent := n.sent + if command.None? then [] else [Sent(|n.table.promises|, command.value)])
  {
    assert n.toServer + [] == n.toServer && n.sent + [] == n.sent;
  }
}
