/** Operations finish: as long as the server's callbacks return and its replies go out, polling both nodes serves every
    command, takes in every reply and leaves no operation in flight. */
module Progress {
  import opened Bytes
  import opened Packets
  import opened PacketParsing
  import opened RoundTrip
  import opened Framing
  import opened TransactionTable
  import opened TwoNodes
  import opened EndToEnd

  /** One more command has been served and answered; the client side is as it was. */
  predicate Serves(n: Net, m: Net) {
    && |m.log| == |n.log| + 1 && m.log[..|n.log|] == n.log && m.log[|n.log|].replied
    && m.table == n.table && m.sent == n.sent && m.deliveries == n.deliveries
  }

  lemma StepServes(n: Net, command: Config, rest: seq<byte>, answer: seq<byte>)
    requires WellFormed(command) && (command.Read? || command.Write?)
    ensures Serves(n, ServerStep(n, Encode(command), rest, Some(answer), true))
  {
    ServerParses(n, command, rest, Some(answer), true);
  }

  /** A poll of the server serves the next command and answers it. */
  lemma ServerServes(n: Net, f: Flow, setup: Setup, capacity: nat, answer: seq<byte>)
    requires setup.Valid() && NetInv(n, f, setup) && |n.log| < |n.sent| && |answer| < 0x100_0000
    ensures Serves(n, Step(n, ServerPoll(capacity, Some(answer), true), setup))
  {
    NextOnServer(n, f, setup, capacity);
    ServerPollIs(n, setup, ServerPoll(capacity, Some(answer), true));
    StepServes(n, n.sent[|n.log|].command, Decode(AutoResize, capacity, n.toServer, []).rest, answer);
  }

  lemma NextOnServer(n: Net, f: Flow, setup: Setup, capacity: nat)
    requires setup.Valid() && FlowInv(n, f, setup) && |n.log| < |n.sent|
    ensures
      var out, command := Decode(AutoResize, capacity, n.toServer, []), n.sent[|n.log|].command;
      && WellFormed(command) && (command.Read? || command.Write?)
      && out.Whole? && out.payload == Encode(command)
  {
    var up := NextCommand(n, f, capacity, setup);
  }

  /** One more reply has been taken in. */
  predicate TakesIn(n: Net, m: Net) {
    |m.deliveries| == |n.deliveries| + 1 && m.log == n.log && m.sent == n.sent
    && |m.table.promises| == |n.table.promises|
  }

  lemma StepTakesIn(n: Net, setup: Setup, c: Config, rest: seq<byte>, throws: bool, k: nat)
    requires setup.Valid() && Inv(n.table, setup.Ids()) && Latest(n.table)
    requires ClientOk(n.table.issued, n.requests, n.sent, setup) && ServerOk(n.sent, n.log)
    requires IsReply(n.log, k, c) && WellFormed(c)
    ensures TakesIn(n, ClientStep(n, Encode(c), rest, throws, setup))
  {
    ClientParses(n, c, rest, throws, setup);
    DispatchTakes(n.(toClient := rest, clientPacket := After(n.clientPacket, Encode(c))), c, k, throws, setup);
  }

  lemma NextOnWire(n: Net, f: Flow, setup: Setup, capacity: nat) returns (c: Config)
    requires setup.Valid() && FlowInv(n, f, setup) && |n.deliveries| < |Replied(n.log)|
    ensures WellFormed(c) && IsReply(n.log, Replied(n.log)[|n.deliveries|], c)
    ensures
      var out := Decode(AutoResize, capacity, n.toClient, []);
      out.Whole? && out.payload == Encode(c)
  {
    var down;
    down, c := NextReply(n, f, capacity, setup);
  }

  /** A poll of the client takes in the next reply. */
  lemma ClientTakesIn(n: Net, f: Flow, setup: Setup, capacity: nat, throws: bool)
    requires setup.Valid() && NetInv(n, f, setup) && |n.deliveries| < |Replied(n.log)|
    ensures TakesIn(n, Step(n, ClientPoll(capacity, throws), setup))
  {
    var c := NextOnWire(n, f, setup, capacity);
    ClientPollIs(n, setup, ClientPoll(capacity, throws));
    var rest := Decode(AutoResize, capacity, n.toClient, []).rest;
    StepTakesIn(n, setup, c, rest, throws, Replied(n.log)[|n.deliveries|]);
  }

  predicate AllReplied(log: seq<Service>) {
    forall k :: 0 <= k < |log| ==> log[k].replied
  }

  lemma {:induction false} RepliedToAll(log: seq<Service>)
    requires AllReplied(log)
    ensures |Replied(log)| == |log| && forall k :: 0 <= k < |log| ==> Replied(log)[k] == k
    decreases |log|
  {
    if log != [] {
      RepliedToAll(log[..|log| - 1]);
    }
  }

  /** Every command served and answered, every reply taken in. */
  predicate Drained(n: Net) {
    |n.log| == |n.sent| && AllReplied(n.log) && |n.deliveries| == |Replied(n.log)|
  }

  /** Then no operation is in flight, and every ID is free. */
  lemma NothingInFlight(n: Net, f: Flow, setup: Setup)
    requires setup.Valid() && NetInv(n, f, setup) && Drained(n)
    ensures forall op: Op :: !InFlight(n.table, op)
    ensures |n.table.available| == setup.Ids() && forall i :: 0 <= i < setup.Ids() ==> n.table.available[i]
  {
    forall op: Op | InFlight(n.table, op)
      ensures false
    {
      assert Seated(n.table, op) && SentFor(n.sent, op);
      var k :| 0 <= k < |n.sent| && n.sent[k].op == op;
      RepliedToAll(n.log);
      Answered(n, k);
    }
    forall i | 0 <= i < setup.Ids()
      ensures n.table.available[i]
    {
      assert SlotOk(n.table, i);
    }
  }

  /** An operation whose reply has been taken in is no longer in flight. */
  lemma Answered(n: Net, k: nat)
    requires DeliveriesOk(n.table, n.sent, n.log, n.deliveries)
    requires k < |n.deliveries| && Replied(n.log)[k] == k < |n.sent|
    ensures !InFlight(n.table, n.sent[k].op)
  {
    var op := n.sent[k].op;
    assert DeliveryOk(n.table, n.sent, n.log, n.deliveries, k);
    if n.deliveries[k].owner != Some(op) && op !in n.table.cancelled && CompletedBy(n.deliveries, op, k) {
      var i :| 0 <= i < k && n.deliveries[i].owner == Some(op);
      assert DeliveryOk(n.table, n.sent, n.log, n.deliveries, i);
    }
  }

  predicate Polls(events: seq<NetEvent>) {
    forall i :: 0 <= i < |events| ==> ProperEvent(events[i]) && (events[i].ServerPoll? || events[i].ClientPoll?)
  }

  ghost predicate Leads(n: Net, events: seq<NetEvent>, setup: Setup, m: Net)
    requires setup.Valid() && Inv(n.table, setup.Ids())
  {
    Polls(events) && RunNet(n, events, setup) == m
  }

  lemma LeadsOn(n: Net, e: NetEvent, events: seq<NetEvent>, setup: Setup, m: Net)
    requires setup.Valid() && Inv(n.table, setup.Ids())
    requires ProperEvent(e) && (e.ServerPoll? || e.ClientPoll?)
    requires Leads(Step(n, e, setup), events, setup, m)
    ensures Leads(n, [e] + events, setup, m)
  {
    assert ([e] + events)[1..] == events;
  }

  lemma ServeOne(n: Net, f: Flow, setup: Setup, answer: seq<byte>) returns (m: Net, f': Flow)
    requires setup.Valid() && NetInv(n, f, setup) && AllReplied(n.log) && |answer| < 0x100_0000
    requires |n.log| < |n.sent|
    ensures m == Step(n, ServerPoll(0, Some(answer), true), setup) && NetInv(m, f', setup)
    ensures AllReplied(m.log) && |m.sent| - |m.log| == |n.sent| - |n.log| - 1
  {
    m := Step(n, ServerPoll(0, Some(answer), true), setup);
    ServerServes(n, f, setup, 0, answer);
    StillAllReplied(n, m);
    f' := StepKeeps(n, f, ServerPoll(0, Some(answer), true), setup);
  }

  lemma StillAllReplied(n: Net, m: Net)
    requires Serves(n, m) && AllReplied(n.log)
    ensures AllReplied(m.log)
  {
    forall k | 0 <= k < |m.log|
      ensures m.log[k].replied
    {
      assert k < |n.log| ==> m.log[..|n.log|][k] == n.log[k];
    }
  }

  lemma ServeAll(n: Net, f: Flow, setup: Setup, answer: seq<byte>) returns (events: seq<NetEvent>, m: Net, f': Flow)
    requires setup.Valid() && NetInv(n, f, setup) && AllReplied(n.log) && |answer| < 0x100_0000
    ensures NetInv(m, f', setup) && Leads(n, events, setup, m)
    ensures |m.log| >= |m.sent| && AllReplied(m.log)
    decreases |n.sent| - |n.log|
  {
    events, m, f' := [], n, f;
    if |n.log| < |n.sent| {
      var e := ServerPoll(0, Some(answer), true);
      var n1, f1 := ServeOne(n, f, setup, answer);
      events, m, f' := ServeAll(n1, f1, setup, answer);
      LeadsOn(n, e, events, setup, m);
      events := [e] + events;
    }
  }

  lemma TakeAll(n: Net, f: Flow, setup: Setup) returns (events: seq<NetEvent>, m: Net, f': Flow)
    requires setup.Valid() && NetInv(n, f, setup)
    ensures NetInv(m, f', setup) && Leads(n, events, setup, m)
    ensures m.log == n.log && m.sent == n.sent && |m.deliveries| == |Replied(m.log)|
    decreases |Replied(n.log)| - |n.deliveries|
  {
    events, m, f' := [], n, f;
    if |n.deliveries| < |Replied(n.log)| {
      var e := ClientPoll(0, false);
      ClientTakesIn(n, f, setup, 0, false);
      var f1 := StepKeeps(n, f, e, setup);
      events, m, f' := TakeAll(Step(n, e, setup), f1, setup);
      LeadsOn(n, e, events, setup, m);
      events := [e] + events;
    }
  }

  lemma {:induction false} RunNetConcat(n: Net, a: seq<NetEvent>, b: seq<NetEvent>, setup: Setup)
    requires setup.Valid() && Inv(n.table, setup.Ids())
    requires forall i :: 0 <= i < |a| ==> ProperEvent(a[i])
    requires forall i :: 0 <= i < |b| ==> ProperEvent(b[i])
    ensures forall i :: 0 <= i < |a + b| ==> ProperEvent((a + b)[i])
    ensures RunNet(n, a + b, setup) == RunNet(RunNet(n, a, setup), b, setup)
    decreases |a|
  {
    if a == [] {
      assert a + b == b;
    } else {
      assert (a + b)[1..] == a[1..] + b;
      RunNetConcat(Step(n, a[0], setup), a[1..], b, setup);
    }
  }

  /** After every run in which each command served so far was answered, polling the two nodes finishes every operation:
      none is in flight any more and every ID is free again. */
  lemma CanFinish(setup: Setup, events: seq<NetEvent>) returns (polls: seq<NetEvent>)
    requires setup.Valid() && forall i :: 0 <= i < |events| ==> ProperEvent(events[i])
    requires AllReplied(Reached(setup, events).log)
    ensures Polls(polls) && forall i :: 0 <= i < |events + polls| ==> ProperEvent((events + polls)[i])
    ensures
      var t := Reached(setup, events + polls).table;
      && (forall op: Op :: !InFlight(t, op))
      && |t.available| == setup.Ids() && forall i :: 0 <= i < setup.Ids() ==> t.available[i]
  {
    var f := ReachedKeeps(setup, events);
    var serve, n1, f1 := ServeAll(Reached(setup, events), f, setup, []);
    var take, n2, f2 := TakeAll(n1, f1, setup);
    polls := serve + take;
    InitialInv(setup.Ids());
    RunNetConcat(Reached(setup, events), serve, take, setup);
    RunNetConcat(InitialNet(setup), events, polls, setup);
    NothingInFlight(n2, f2, setup);
  }
}
