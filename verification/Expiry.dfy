/** When operations begin, how they end, and when they time out: the time kept for a busy slot is the clock reading of
    the allocation that gave it out, and a start times out exactly the first operation that is too old by that
    reading. */
module Expiry {
  import opened Bytes
  import opened Transport
  import opened TransactionTable

  predicate SomeFree(t: Table) {
    exists i :: 0 <= i < |t.available| && t.available[i]
  }

  /** The clock is read once per round of the allocation: the first round ends it if an ID is free, the second follows
      an expiry. */
  function RoundTime(t: Table, now: int, later: int): int {
    if SomeFree(t) then now else later
  }

  /** When each operation began, as a run goes on. */
  function Begin(t: Table, begun: seq<int>, e: Event): seq<int> {
    if e.StartEvent? then begun + [RoundTime(t, e.now, e.later)] else begun
  }

  ghost function Begun(t: Table, begun: seq<int>, events: seq<Event>, timeout: int, ids: nat): seq<int>
    requires Inv(t, ids)
    decreases |events|
  {
    if events == [] then begun
    else
      NextInv(t, events[0], timeout, ids);
      Begun(Next(t, events[0], timeout, ids), Begin(t, begun, events[0]), events[1..], timeout, ids)
  }

  /** The slot of an in-flight operation carries the time at which it began. */
  predicate StampOk(t: Table, begun: seq<int>, op: Op)
    requires |t.issued| == |t.promises| == |begun|
  {
    InFlight(t, op) ==>
      && t.issued[op].Some? && t.issued[op].value < |t.lastUsed|
      && t.lastUsed[t.issued[op].value] == Some(begun[op])
  }

  ghost predicate Stamped(t: Table, begun: seq<int>) {
    |t.issued| == |t.promises| == |begun| && forall op: Op :: StampOk(t, begun, op)
  }

  /** A start that finds no ID, or whose command does not go out, leaves the time stamps of operations in flight as they
      are; a new operation in flight has the reading of its round. */
  lemma StartStamp(t: Table, begun: seq<int>, e: Event, timeout: int, ids: nat, op: Op)
    requires Inv(t, ids) && Stamped(t, begun) && e.StartEvent?
    ensures
      var u := Next(t, e, timeout, ids);
      |u.issued| == |u.promises| == |begun| + 1 && StampOk(u, Begin(t, begun, e), op)
  {
    HandlersAreStarted(t, ids);
    FreeExactly(t);
    StartInv(t, e.now, e.later, timeout, e.send, ids);
    assert StampOk(t, begun, op) && Seated(t, op) && Seated(Next(t, e, timeout, ids), op);
  }

  lemma StartStamps(t: Table, begun: seq<int>, e: Event, timeout: int, ids: nat)
    requires Inv(t, ids) && Stamped(t, begun) && e.StartEvent?
    ensures Stamped(Next(t, e, timeout, ids), Begin(t, begun, e))
  {
    var u, more := Next(t, e, timeout, ids), Begin(t, begun, e);
    StartStamp(t, begun, e, timeout, ids, 0);
    forall op: Op
      ensures StampOk(u, more, op)
    {
      StartStamp(t, begun, e, timeout, ids, op);
    }
  }

  lemma FreeExactly(t: Table)
    ensures SomeFree(t) <==> LowestFree(t.available, 0) < |t.available|
  {
    var i := LowestFree(t.available, 0);
    if i < |t.available| {
      assert t.available[i];
    }
  }

  /** No event but a start sets a time stamp, and none changes that of an operation that stays in flight. */
  lemma NextStamped(t: Table, begun: seq<int>, e: Event, timeout: int, ids: nat)
    requires Inv(t, ids) && Stamped(t, begun)
    ensures Stamped(Next(t, e, timeout, ids), Begin(t, begun, e))
  {
    HandlersAreStarted(t, ids);
    if e.StartEvent? {
      StartStamps(t, begun, e, timeout, ids);
    } else {
      var u := Next(t, e, timeout, ids);
      NextInv(t, e, timeout, ids);
      forall op: Op
        ensures StampOk(u, begun, op)
      {
        assert StampOk(t, begun, op) && Seated(t, op) && Seated(u, op);
        if e.CancelEvent? {
          assert Seated(t, e.op);
        }
      }
    }
  }

  lemma {:induction false} RunStamped(t: Table, begun: seq<int>, events: seq<Event>, timeout: int, ids: nat)
    requires Inv(t, ids) && Stamped(t, begun)
    ensures Stamped(Run(t, events, timeout, ids), Begun(t, begun, events, timeout, ids))
    decreases |events|
  {
    if events != [] {
      NextStamped(t, begun, events[0], timeout, ids);
      NextInv(t, events[0], timeout, ids);
      RunStamped(Next(t, events[0], timeout, ids), Begin(t, begun, events[0]), events[1..], timeout, ids);
    }
  }

  /** Another in-flight operation, with a lower ID. */
  predicate LowerId(t: Table, other: Op, op: Op)
    requires |t.issued| == |t.promises| && op < |t.issued|
  {
    && InFlight(t, other) && t.issued[other].Some? && t.issued[op].Some?
    && t.issued[other].value < t.issued[op].value
  }

  /** In a stamped table a start times out an in-flight operation if and only if no ID is free, the operation began
      longer ago than the timeout, and every operation with a lower ID did not. */
  lemma TimesOut(t: Table, begun: seq<int>, e: Event, timeout: int, ids: nat, op: Op)
    requires Inv(t, ids) && Stamped(t, begun) && e.StartEvent? && InFlight(t, op)
    ensures t.issued[op].Some?
    ensures
      var u := Next(t, e, timeout, ids);
      op < |u.promises| && (u.promises[op] == Some(Err(TimedOut)) <==>
        && !SomeFree(t) && e.now - begun[op] > timeout
        && forall other: Op :: LowerId(t, other, op) ==> e.now - begun[other] <= timeout)
  {
    HandlersAreStarted(t, ids);
    FreeExactly(t);
    assert StampOk(t, begun, op) && Seated(t, op);
    var slot := t.issued[op].value;
    var x := FirstExpired(t, e.now, timeout, 0);
    assert Expired(t, slot, e.now, timeout) <==> e.now - begun[op] > timeout;
    forall other: Op | InFlight(t, other)
      ensures t.issued[other].Some? && t.issued[other].value < ids
      ensures Expired(t, t.issued[other].value, e.now, timeout) <==> e.now - begun[other] > timeout
    {
      assert StampOk(t, begun, other) && Seated(t, other);
    }
    if x < ids {
      OwnerOfExpired(t, x, e.now, timeout, ids);
    }
  }

  lemma OwnerOfExpired(t: Table, x: nat, now: int, timeout: int, ids: nat)
    requires Inv(t, ids) && x < ids && Expired(t, x, now, timeout)
    ensures t.reply[x].Some? && InFlight(t, t.reply[x].value) && t.issued[t.reply[x].value] == Some(x)
  {
    assert SlotOk(t, x);
  }

  /** After every run from the initial table. */
  lemma TimesOutExactly(events: seq<Event>, e: Event, timeout: int, ids: nat, op: Op)
    requires Inv(Initial(ids), ids)
    requires e.StartEvent? && InFlight(Run(Initial(ids), events, timeout, ids), op)
    ensures
      var t := Run(Initial(ids), events, timeout, ids);
      var begun := Begun(Initial(ids), [], events, timeout, ids);
      var u := Next(t, e, timeout, ids);
      && |begun| == |t.promises| == |t.issued| && t.issued[op].Some? && op < |u.promises|
      && (u.promises[op] == Some(Err(TimedOut)) <==>
        && !SomeFree(t) && e.now - begun[op] > timeout
        && forall other: Op :: LowerId(t, other, op) ==> e.now - begun[other] <= timeout)
  {
    RunStamped(Initial(ids), [], events, timeout, ids);
    var begun := Begun(Initial(ids), [], events, timeout, ids);
    TimesOut(Run(Initial(ids), events, timeout, ids), begun, e, timeout, ids, op);
  }

  /** How an operation in flight ends: with success exactly by a reply under its ID, cancelled exactly by a reply whose
      callback throws, given up exactly by its own caller, and otherwise only by timing out in somebody's start. */
  lemma EndsExactly(t: Table, e: Event, timeout: int, ids: nat, op: Op)
    requires Inv(t, ids) && InFlight(t, op)
    ensures t.issued[op].Some?
    ensures
      var u, slot := Next(t, e, timeout, ids), t.issued[op].value;
      && op < |u.promises|
      && (u.promises[op] == Some(Ok(())) <==> e == ReplyEvent(slot, false))
      && (u.promises[op] == Some(Err(OperationCanceled)) <==> e == ReplyEvent(slot, true))
      && (op in u.cancelled <==> e == CancelEvent(op))
      && (u.promises[op].Some? && !e.ReplyEvent? ==> e.StartEvent? && u.promises[op] == Some(Err(TimedOut)))
  {
    HandlersAreStarted(t, ids);
    assert Seated(t, op);
    match e
    case StartEvent(now, later, send) =>
      var x := FirstExpired(t, now, timeout, 0);
      if x < ids {
        OwnerOfExpired(t, x, now, timeout, ids);
      }
    case ReplyEvent(i, throws) =>
      if i < ids {
        assert SlotOk(t, i);
      }
    case CancelEvent(other) =>
      assert Seated(t, other);
  }

  /** What a start does to its own operation and to the table: without an ID it is settled with try_again and the table
      stays as it was; with a failed send it is settled with that error and holds no slot; otherwise it is in flight, in
      the lowest free slot or else the first expired one, since the reading of the round that gave it out. */
  lemma StartExactly(t: Table, now: int, later: int, send: Outcome, timeout: int, ids: nat)
    requires Inv(t, ids)
    ensures
      var u := Next(t, StartEvent(now, later, send), timeout, ids);
      var op := |t.promises|;
      var none := (forall i :: 0 <= i < ids ==> !t.available[i] && !Expired(t, i, now, timeout));
      && |u.promises| == |u.issued| == op + 1 && Inv(u, ids)
      && (none ==> u.promises == t.promises + [Some(Err(TryAgain))] && u.issued[op] == None && u.lastUsed == t.lastUsed
                   && u.available == t.available)
      && (!none && send.Err? ==> u.promises[op] == Some(send) && u.issued[op] == None)
      && (!none && send.Ok? ==>
        && u.promises[op] == None && u.issued[op].Some? && InFlight(u, op) && u.issued[op].value < ids
        && u.lastUsed[u.issued[op].value] == Some(RoundTime(t, now, later)))
  {
    NextInv(t, StartEvent(now, later, send), timeout, ids);
    HandlersAreStarted(t, ids);
    FreeExactly(t);
    AllocateExact(t, now, later, timeout, ids);
  }
}
