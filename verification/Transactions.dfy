/** The transaction IDs of SpwRmapTCPNodeImpl as the code keeps them: parallel vectors updated in place. Every method is
    proved to take the step of the same name in TransactionTable. */
module Transactions {
  import opened Bytes
  import opened Transport
  import opened TransactionTable

  /** What happens around one attempt of a synchronous call: other threads' steps before it starts, the clock readings
      of its allocation, the fate of its packet, and the steps taken while it waits. */
  datatype Attempt = Attempt(before: seq<Event>, now: int, later: int, send: Outcome, during: seq<Event>)

  /** Nobody else gives up on an operation of ours: the other events all happen, in their order. */
  function NotOurs(events: seq<Event>, op: Op): (r: seq<Event>)
    ensures CancelEvent(op) !in r
    ensures CancelEvent(op) !in events ==> r == events
  {
    if events == [] then []
    else if events[0] == CancelEvent(op) then NotOurs(events[1..], op)
    else [events[0]] + NotOurs(events[1..], op)
  }

  /** The others' events, one after the other. */
  lemma {:induction false} NotOursAppend(events: seq<Event>, e: Event, op: Op)
    ensures NotOurs(events + [e], op) == NotOurs(events, op) + if e == CancelEvent(op) then [] else [e]
    decreases |events|
  {
    var more := events + [e];
    if events == [] {
      assert more == [e] && more[1..] == [];
    } else {
      var first, tail := events[0], events[1..];
      assert more[0] == first && more[1..] == tail + [e];
      NotOursAppend(tail, e, op);
      Assoc([first], NotOurs(tail, op), if e == CancelEvent(op) then [] else [e]);
    }
  }

  /** While others step, an operation of ours is cancelled by nobody. */
  lemma {:induction false} RunNotOurs(t: Table, events: seq<Event>, op: Op, timeout: int, ids: nat)
    requires Inv(t, ids) && op < |t.promises| && op !in t.cancelled
    ensures op !in Run(t, NotOurs(events, op), timeout, ids).cancelled
    decreases |events|
  {
    if events != [] {
      if events[0] == CancelEvent(op) {
        RunNotOurs(t, events[1..], op, timeout, ids);
      } else {
        NextInv(t, events[0], timeout, ids);
        NextLater(t, events[0], timeout, ids);
        var u := Next(t, events[0], timeout, ids);
        if events[0].CancelEvent? {
          assert Seated(t, events[0].op);
        }
        RunNotOurs(u, events[1..], op, timeout, ids);
        var rest := NotOurs(events[1..], op);
        assert ([events[0]] + rest)[1..] == rest;
      }
    }
  }

  lemma StartedLater(t: Table, u: Table, now: int, later: int, send: Outcome, timeout: int, ids: nat)
    requires Inv(t, ids)
    requires forall i :: 0 <= i < |t.reply| && t.reply[i].Some? ==> t.reply[i].value < |t.promises|
    requires u == Start(t, now, later, timeout, send).0
    ensures Later(t, u) && |u.promises| == |t.promises| + 1 && |t.promises| !in u.cancelled
  {
    NextLater(t, StartEvent(now, later, send), timeout, ids);
  }

  function Tries(retryCount: nat): nat {
    if retryCount == 0 then 1 else retryCount
  }

  class Transactions {
    const idMin: uint16
    const idMax: uint16
    var timeout: int
    var available: seq<bool>
    var reply: seq<Option<Op>>
    var error: seq<Option<Op>>
    var lastUsed: seq<Option<int>>
    // what the callers hold: one entry per operation
    var promises: seq<Option<Outcome>>
    var issued: seq<Option<nat>>
    var cancelled: set<Op>

    ghost function View(): Table
      reads this
    {
      Table(available, reply, error, lastUsed, promises, issued, cancelled)
    }

    ghost predicate Valid()
      reads this
    {
      idMin <= idMax && Inv(View(), idMax - idMin)
    }

    constructor (min: uint16, max: uint16, transactionTimeout: int)
      requires min <= max
      ensures Valid() && idMin == min && idMax == max && timeout == transactionTimeout
      ensures View() == Initial(max - min)
    {
      idMin, idMax, timeout := min, max, transactionTimeout;
      available, reply, error, lastUsed, promises, issued, cancelled := [], [], [], [], [], [], {};
      new;
      var i := 0;
      while i < max - min
        invariant 0 <= i <= max - min
        invariant idMin == min && idMax == max && timeout == transactionTimeout
        invariant View() == Initial(i)
      {
        available, reply, error, lastUsed := available + [true], reply + [None], error + [None], lastUsed + [None];
        i := i + 1;
      }
      InitialInv(max - min);
    }

    /** `releaseTransactionID_` */
    method ReleaseTransactionId(transactionId: int)
      requires |available| == |lastUsed| == idMax - idMin
      modifies this`available, this`lastUsed
      ensures idMin <= transactionId < idMax ==>
        && available == old(available)[transactionId - idMin := true]
        && lastUsed == old(lastUsed)[transactionId - idMin := None]
      ensures !(idMin <= transactionId < idMax) ==> available == old(available) && lastUsed == old(lastUsed)
    {
      if transactionId < idMin || transactionId >= idMax {
        return;
      }
      var index := transactionId - idMin;
      available := available[index := true];
      lastUsed := lastUsed[index := None];
    }

    /** The tail shared by all handlers: settle the promise, give the ID back, drop the error handler. */
    method Finish(op: Op, index: nat, outcome: Outcome)
      requires idMin <= idMax && Shaped(View(), idMax - idMin) && index < idMax - idMin && op < |promises|
      modifies this`promises, this`available, this`lastUsed, this`error
      ensures promises == old(promises)[op := Some(outcome)]
      ensures available == old(available)[index := true]
      ensures lastUsed == old(lastUsed)[index := None]
      ensures error == old(error)[index := None]
    {
      promises := promises[op := Some(outcome)];
      ReleaseTransactionId(idMin + index);
      error := error[index := None];
    }

    /** `forceReleaseTransaction_`: the operation in the slot times out. */
    method ForceReleaseTransaction(index: nat)
      requires Valid() && index < idMax - idMin
      modifies this`promises, this`available, this`lastUsed, this`error, this`reply
      ensures Valid()
      ensures SlotOk(old(View()), index)
      ensures View() == Settle(old(View()), index, Err(TimedOut))
    {
      SettleInv(View(), index, Err(TimedOut), idMax - idMin);
      assert SlotOk(View(), index);
      var handler := error[index];
      reply := reply[index := None];
      error := error[index := None];
      if handler.Some? {
        Finish(handler.value, index, Err(TimedOut));
      } else {
        ReleaseTransactionId(idMin + index);
      }
      assert View() == Settle(old(View()), index, Err(TimedOut));
    }

    /** One locked scan of the table: takes the lowest free slot, or else finds the first expired one. */
    method TakeFree(clock: int) returns (taken: Option<nat>, expired: Option<nat>)
      requires Valid()
      modifies this`available, this`lastUsed
      ensures
        var t := old(View());
        var i := LowestFree(t.available, 0);
        var e := FirstExpired(t, clock, timeout, 0);
        && taken == (if i < idMax - idMin then Some(i) else None)
        && View() == (if taken.Some? then Take(t, i, clock) else t)
        && (taken.None? ==> expired == if e < idMax - idMin then Some(e) else None)
    {
      ghost var v := View();
      var totalIds: nat := idMax - idMin;
      expired := None;
      var i := 0;
      while i < totalIds
        invariant 0 <= i <= totalIds && View() == v
        invariant forall j :: 0 <= j < i ==> !available[j]
        invariant expired.None? ==> forall j :: 0 <= j < i ==> !Expired(v, j, clock, timeout)
        invariant expired.Some? ==> expired.value < i && expired.value == FirstExpired(v, clock, timeout, 0)
      {
        if available[i] {
          available := available[i := false];
          lastUsed := lastUsed[i := Some(clock)];
          return Some(i), expired;
        }
        assert SlotOk(v, i);
        if expired.None? {
          var elapsed := clock - lastUsed[i].value;
          if elapsed > timeout {
            assert Expired(v, i, clock, timeout);
            expired := Some(i);
          }
        }
        i := i + 1;
      }
      return None, expired;
    }

    /** `getAvailableTransactionID_`, run alone: the lowest free ID; else the first expired operation is settled with
        timed_out and its ID reused; failure exactly when every ID is busy and none is older than the timeout. */
    method GetAvailableTransactionId(now: int, later: int) returns (r: Result<int, Errc>)
      requires Valid()
      modifies this`promises, this`available, this`lastUsed, this`error, this`reply
      ensures forall i :: 0 <= i < |old(reply)| && old(reply)[i].Some? ==> old(reply)[i].value < |old(promises)|
      ensures View() == Allocate(old(View()), now, later, timeout).0
      ensures
        var slot := Allocate(old(View()), now, later, timeout).1;
        r == if slot.Some? then Ok(idMin + slot.value) else Err(TryAgain)
    {
      ghost var t := View();
      HandlersAreStarted(t, idMax - idMin);
      var clock, firstRound := now, true;
      ghost var e := FirstExpired(t, now, timeout, 0);
      while true
        invariant Valid()
        invariant firstRound ==> View() == t && clock == now
        invariant !firstRound ==> clock == later && LowestFree(t.available, 0) == |t.available|
        invariant !firstRound ==> e < |t.available| && View() == Settle(t, e, Err(TimedOut))
        decreases firstRound
      {
        assert !firstRound ==> available[e] && LowestFree(available, 0) == e;
        var taken, expired := TakeFree(clock);
        if taken.Some? {
          return Ok(idMin + taken.value);
        }
        if expired.None? {
          return Err(TryAgain);
        }
        ForceReleaseTransaction(expired.value);
        clock, firstRound := later, false;
      }
    }

    /** Registers both handlers of a new operation in a slot taken for it. */
    method RegisterHandlers(index: nat)
      requires idMin <= idMax && Shaped(View(), idMax - idMin) && index < idMax - idMin && |issued| == |promises|
      modifies this`promises, this`issued, this`error, this`reply
      ensures View() == Register(Enlist(old(View()), None, Some(index)), index, |old(promises)|)
    {
      var op := |promises|;
      error := error[index := Some(op)];
      reply := reply[index := Some(op)];
      promises, issued := promises + [None], issued + [Some(index)];
    }

    /** The first half of `startWriteAsyncOperation_` and `startReadAsyncOperation_`: allocate and register. */
    method Open(now: int, later: int) returns (op: Op, transactionId: Option<int>)
      requires Valid()
      modifies this`promises, this`issued, this`available, this`lastUsed, this`error, this`reply
      ensures Valid()
      ensures forall i :: 0 <= i < |old(reply)| && old(reply)[i].Some? ==> old(reply)[i].value < |old(promises)|
      ensures (View(), op) == Start(old(View()), now, later, timeout, Ok(()))
      ensures op < |promises| && transactionId == if issued[op].Some? then Some(idMin + issued[op].value) else None
      ensures op == |old(promises)| && (transactionId.Some? ==> idMin <= transactionId.value < idMax)
    {
      HandlersAreStarted(View(), idMax - idMin);
      StartInv(View(), now, later, timeout, Ok(()), idMax - idMin);
      op := |promises|;
      var id := GetAvailableTransactionId(now, later);
      if id.Err? {
        promises, issued := promises + [Some(Err(id.error))], issued + [None];
        return op, None;
      }
      RegisterHandlers(id.value - idMin);
      transactionId := Some(id.value);
    }

    /** Their second half when the command does not go out: the handlers are taken back out, the promise is settled with
        the error and the caller is told no ID. */
    method Withdraw(op: Op, transactionId: int, error: Errc, ghost t: Table, ghost now: int, ghost later: int)
      requires Valid() && Inv(t, idMax - idMin) && op == |t.promises|
      requires forall i :: 0 <= i < |t.reply| && t.reply[i].Some? ==> t.reply[i].value < |t.promises|
      requires View() == Start(t, now, later, timeout, Ok(())).0
      requires op < |issued| && issued[op].Some? && transactionId == idMin + issued[op].value
      modifies this`promises, this`issued, this`available, this`lastUsed, this`error, this`reply
      ensures Valid() && View() == Start(t, now, later, timeout, Err(error)).0
      ensures op < |promises| && promises[op].Some? && issued[op].None?
    {
      WithdrawnIsFailed(t, now, later, timeout, error, idMax - idMin);
      StartInv(t, now, later, timeout, Err(error), idMax - idMin);
      var index := transactionId - idMin;
      reply := reply[index := None];
      this.error := this.error[index := None];
      promises, issued := promises[op := Some(Err(error))], issued[op := None];
      ReleaseTransactionId(transactionId);
    }

    /** A whole start; `send` is how sending the command ended. The caller is told the ID only when the command went
        out. */
    method StartOperation(now: int, later: int, send: Outcome) returns (op: Op, transactionId: Option<int>)
      requires Valid()
      modifies this`promises, this`issued, this`available, this`lastUsed, this`error, this`reply
      ensures Valid()
      ensures forall i :: 0 <= i < |old(reply)| && old(reply)[i].Some? ==> old(reply)[i].value < |old(promises)|
      ensures (View(), op) == Start(old(View()), now, later, timeout, send)
      ensures op < |promises| && transactionId.Some? == promises[op].None?
      ensures transactionId == if issued[op].Some? then Some(idMin + issued[op].value) else None
    {
      ghost var t := View();
      op, transactionId := Open(now, later);
      if send.Err? {
        WithdrawnIsFailed(t, now, later, timeout, send.error, idMax - idMin);
        if transactionId.Some? {
          Withdraw(op, transactionId.value, send.error, t, now, later);
          transactionId := None;
        }
      }
    }

    /** The reply branch of `poll`: an ID outside the range is a bad message, a slot without a handler ignores the
        reply. */
    method DeliverReply(transactionId: uint16, throws: bool) returns (r: Result<bool, Errc>)
      requires Valid()
      modifies this`promises, this`available, this`lastUsed, this`error, this`reply
      ensures Valid()
      ensures r.Ok? == (idMin <= transactionId < idMax)
      ensures r.Err? ==> r.error == BadMessage && View() == old(View())
      ensures r.Ok? ==> r.value && SlotOk(old(View()), transactionId - idMin)
      ensures r.Ok? ==> View() == Deliver(old(View()), transactionId - idMin, throws)
    {
      if transactionId < idMin || transactionId >= idMax {
        return Err(BadMessage);
      }
      var index: nat := transactionId - idMin;
      DeliverInv(View(), index, throws, idMax - idMin);
      assert SlotOk(View(), index);
      if reply[index].Some? {
        var callback := reply[index].value;
        reply := reply[index := None];
        error := error[index := None];
        Finish(callback, index, if throws then Err(OperationCanceled) else Ok(()));
      }
      assert View() == Deliver(old(View()), index, throws);
      return Ok(true);
    }

    /** `cancelTransaction_` */
    method CancelTransaction(transactionId: int)
      requires Valid()
      modifies this`available, this`lastUsed, this`error, this`reply, this`cancelled
      ensures Valid()
      ensures idMin <= transactionId < idMax ==> View() == Cancel(old(View()), transactionId - idMin)
      ensures !(idMin <= transactionId < idMax) ==> View() == old(View())
    {
      if transactionId < idMin || transactionId >= idMax {
        return;
      }
      var index: nat := transactionId - idMin;
      CancelInv(View(), index, idMax - idMin);
      if reply[index].Some? {
        cancelled := cancelled + {reply[index].value};
      }
      reply := reply[index := None];
      error := error[index := None];
      ReleaseTransactionId(transactionId);
    }

    /** One step of any thread. */
    method Perform(e: Event)
      requires Valid()
      modifies this`promises, this`issued, this`available, this`lastUsed, this`error, this`reply, this`cancelled
      ensures Valid()
      ensures View() == Next(old(View()), e, timeout, idMax - idMin)
    {
      match e
      case StartEvent(now, later, send) =>
        var op, id := StartOperation(now, later, send);
      case ReplyEvent(slot, throws) =>
        if idMin + slot < idMax {
          var r := DeliverReply(idMin + slot, throws);
        }
      case CancelEvent(op) =>
        assert Seated(View(), op);
        if op < |promises| && promises[op].None? && op !in cancelled {
          CancelTransaction(idMin + issued[op].value);
        }
    }

    /** Steps of other threads while `mine` is ours. */
    method Others(events: seq<Event>, mine: Op)
      requires Valid()
      modifies this`promises, this`issued, this`available, this`lastUsed, this`error, this`reply, this`cancelled
      ensures Valid()
      ensures View() == Run(old(View()), NotOurs(events, mine), timeout, idMax - idMin)
    {
      var i := 0;
      while i < |events|
        invariant 0 <= i <= |events| && Valid()
        invariant
          Run(old(View()), NotOurs(events, mine), timeout, idMax - idMin)
          == Run(View(), NotOurs(events[i..], mine), timeout, idMax - idMin)
      {
        assert events[i..][1..] == events[i + 1..];
        if events[i] != CancelEvent(mine) {
          ghost var rest := NotOurs(events[i + 1..], mine);
          assert ([events[i]] + rest)[1..] == rest;
          Perform(events[i]);
        }
        i := i + 1;
      }
    }

    /** `write` and `read`: at most max(1, retryCount) operations are started, all but the last were given up, and none
        holds an ID on return. The result is the last operation's, or timed_out when that one was given up too. */
    method Synchronous(retryCount: nat, attempts: seq<Attempt>) returns (r: Outcome, ghost mine: seq<Op>)
      requires Valid() && |attempts| >= Tries(retryCount)
      modifies this`promises, this`issued, this`available, this`lastUsed, this`error, this`reply, this`cancelled
      ensures Valid() && Later(old(View()), View())
      ensures if retryCount == 0 then |mine| == 1 else 1 <= |mine| <= retryCount
      ensures forall k :: 0 <= k < |mine| ==> |old(promises)| <= mine[k] < |promises| && !InFlight(View(), mine[k])
      ensures forall j, k :: 0 <= j < k < |mine| ==> mine[j] < mine[k]
      ensures forall k :: 0 <= k < |mine| - 1 ==> mine[k] in cancelled
      ensures
        var last := mine[|mine| - 1];
        if last in cancelled then r == Err(TimedOut) && (retryCount > 0 ==> |mine| == retryCount)
        else promises[last] == Some(r)
    {
      var tries := Tries(retryCount);
      mine := [];
      var attempt := 0;
      while attempt < tries
        invariant 0 <= attempt <= tries && |mine| == attempt
        invariant Valid() && Later(old(View()), View())
        invariant forall k :: 0 <= k < |mine| ==> |old(promises)| <= mine[k] < |promises| && mine[k] in cancelled
        invariant forall j, k :: 0 <= j < k < |mine| ==> mine[j] < mine[k]
      {
        var op, ready := OneAttempt(attempts[attempt]);
        mine := mine + [op];
        if ready {
          return promises[op].value, mine;
        }
        attempt := attempt + 1;
      }
      return Err(TimedOut), mine;
    }

    method Begin(a: Attempt) returns (op: Op, transactionId: Option<int>)
      requires Valid()
      modifies this`promises, this`issued, this`available, this`lastUsed, this`error, this`reply
      ensures Valid() && Later(old(View()), View())
      ensures op == |old(promises)| < |promises| && op !in cancelled
      ensures transactionId == if issued[op].Some? then Some(idMin + issued[op].value) else None
    {
      ghost var t := View();
      op, transactionId := StartOperation(a.now, a.later, a.send);
      StartedLater(t, View(), a.now, a.later, a.send, timeout, idMax - idMin);
    }

    method Wait(events: seq<Event>, mine: Op)
      requires Valid()
      modifies this`promises, this`issued, this`available, this`lastUsed, this`error, this`reply, this`cancelled
      ensures Valid() && Later(old(View()), View())
      ensures mine < |old(promises)| && mine !in old(cancelled) ==> mine !in cancelled
    {
      ghost var t := View();
      Others(events, mine);
      RunLater(t, NotOurs(events, mine), timeout, idMax - idMin);
      if mine < |t.promises| && mine !in t.cancelled {
        RunNotOurs(t, events, mine, timeout, idMax - idMin);
      }
    }

    /** Start and wait: the operation is ours alone to give up. */
    method StartAndWait(a: Attempt) returns (op: Op, transactionId: Option<int>)
      requires Valid()
      modifies this`promises, this`issued, this`available, this`lastUsed, this`error, this`reply, this`cancelled
      ensures Valid() && Later(old(View()), View())
      ensures |old(promises)| <= op < |promises| && op !in cancelled
      ensures transactionId == if issued[op].Some? then Some(idMin + issued[op].value) else None
    {
      Wait(a.before, |promises|);
      ghost var t := View();
      op, transactionId := Begin(a);
      LaterTransitive(old(View()), t, View());
      ghost var u := View();
      Wait(a.during, op);
      LaterTransitive(old(View()), u, View());
    }

    /** One attempt: give up if the promise is still pending when the wait ends. */
    method OneAttempt(a: Attempt) returns (op: Op, ready: bool)
      requires Valid()
      modifies this`promises, this`issued, this`available, this`lastUsed, this`error, this`reply, this`cancelled
      ensures Valid() && Later(old(View()), View())
      ensures |old(promises)| <= op < |promises| && ready == promises[op].Some? && (op in cancelled) == !ready
    {
      var transactionId;
      op, transactionId := StartAndWait(a);
      ready := promises[op].Some?;
      if !ready {
        ghost var t := View();
        assert Seated(t, op);
        NextLater(t, CancelEvent(op), timeout, idMax - idMin);
        if transactionId.Some? {
          CancelTransaction(transactionId.value);
        }
        assert View() == Next(t, CancelEvent(op), timeout, idMax - idMin);
      }
    }
  }
}
