/** The transaction table of SpwRmapTCPNodeImpl as a state machine, one atomic step per operation: what every run of
    starts, replies, cancellations and expiries keeps. */
module TransactionTable {
  import opened Bytes
  import opened Transport

  /** Operations are numbered in the order they are started; a handler is known by the operation whose promise it
      settles. */
  type Op = nat

  type Outcome = Result<(), Errc>

  /** The parallel vectors of the node; and, for every operation started so far, its promise, the slot of the ID its
      caller was given, and whether its caller gave up on it. `lastUsed` is None for the time_point::min() sentinel. */
  datatype Table = Table(
    available: seq<bool>, reply: seq<Option<Op>>, error: seq<Option<Op>>, lastUsed: seq<Option<int>>,
    promises: seq<Option<Outcome>>, issued: seq<Option<nat>>, cancelled: set<Op>)

  function Initial(ids: nat): Table {
    Table(seq(ids, i => true), seq(ids, i => None), seq(ids, i => None), seq(ids, i => None), [], [], {})
  }

  /** Started, not settled and not cancelled. */
  predicate InFlight(t: Table, op: Op) {
    op < |t.promises| && t.promises[op].None? && op !in t.cancelled
  }

  predicate Holds(t: Table, i: nat, op: Op) {
    i < |t.reply| && t.reply[i] == Some(op)
  }

  predicate Shaped(t: Table, ids: nat) {
    |t.available| == |t.reply| == |t.error| == |t.lastUsed| == ids
  }

  /** A slot is free exactly when both handlers are empty and its time is the sentinel; a busy slot's handlers belong to
      one in-flight operation, whose caller was given this slot's ID. */
  predicate SlotOk(t: Table, i: nat)
    requires Shaped(t, |t.reply|) && i < |t.reply| && |t.issued| == |t.promises|
  {
    && t.available[i] == t.reply[i].None?
    && t.error[i] == t.reply[i]
    && t.lastUsed[i].None? == t.available[i]
    && (t.reply[i].Some? ==> InFlight(t, t.reply[i].value) && t.issued[t.reply[i].value] == Some(i))
  }

  /** Every in-flight operation sits in the slot its caller was given. */
  predicate Seated(t: Table, op: Op)
    requires |t.issued| == |t.promises|
  {
    InFlight(t, op) ==> t.issued[op].Some? && Holds(t, t.issued[op].value, op)
  }

  /** The table invariant: busy slots and in-flight operations are in bijection. */
  ghost predicate Inv(t: Table, ids: nat) {
    && Shaped(t, ids)
    && |t.issued| == |t.promises|
    && (forall i :: 0 <= i < ids ==> SlotOk(t, i))
    && (forall op: Op :: Seated(t, op))
    && (forall op: Op :: op in t.cancelled ==> op < |t.promises|)
  }

  // ---------- atomic operations ----------

  /** Lowest index from k on whose slot is free, or the table size. */
  function LowestFree(available: seq<bool>, k: nat): (i: nat)
    requires k <= |available|
    ensures k <= i <= |available|
    ensures forall j :: k <= j < i ==> !available[j]
    ensures i < |available| ==> available[i]
    decreases |available| - k
  {
    if k == |available| || available[k] then k else LowestFree(available, k + 1)
  }

  predicate Expired(t: Table, i: nat, now: int, timeout: int)
    requires i < |t.lastUsed|
  {
    t.lastUsed[i].Some? && now - t.lastUsed[i].value > timeout
  }

  /** Lowest index from k on whose slot is older than the timeout, or the table size. */
  function FirstExpired(t: Table, now: int, timeout: int, k: nat): (i: nat)
    requires k <= |t.lastUsed|
    ensures k <= i <= |t.lastUsed|
    ensures forall j :: k <= j < i ==> !Expired(t, j, now, timeout)
    ensures i < |t.lastUsed| ==> Expired(t, i, now, timeout)
    decreases |t.lastUsed| - k
  {
    if k == |t.lastUsed| || Expired(t, k, now, timeout) then k else FirstExpired(t, now, timeout, k + 1)
  }

  /** Marks slot i as in use since `now`. */
  function Take(t: Table, i: nat, now: int): Table
    requires i < |t.available| && i < |t.lastUsed|
  {
    t.(available := t.available[i := false], lastUsed := t.lastUsed[i := Some(now)])
  }

  /** Empties slot i and gives its ID back. */
  function Vacate(t: Table, i: nat): Table
    requires Shaped(t, |t.reply|) && i < |t.reply|
  {
    t.(available := t.available[i := true], reply := t.reply[i := None], error := t.error[i := None],
       lastUsed := t.lastUsed[i := None])
  }

  /** Sets the promise of the operation in slot i, if there is one, and vacates the slot. */
  function Settle(t: Table, i: nat, outcome: Outcome): Table
    requires Shaped(t, |t.reply|) && i < |t.reply|
    requires t.reply[i].Some? ==> t.reply[i].value < |t.promises|
  {
    var v := Vacate(t, i);
    if t.reply[i].Some? then v.(promises := t.promises[t.reply[i].value := Some(outcome)]) else v
  }

  /** Registers both handlers of `op` in slot i. */
  function Register(t: Table, i: nat, op: Op): Table
    requires i < |t.reply| && i < |t.error|
  {
    t.(reply := t.reply[i := Some(op)], error := t.error[i := Some(op)])
  }

  /** Allocation, run alone: the lowest free ID if any; otherwise the first expired operation is settled with
      timed_out and its ID reused; otherwise failure. The clock is read once per round. */
  function Allocate(t: Table, now: int, later: int, timeout: int): (Table, Option<nat>)
    requires Shaped(t, |t.reply|)
    requires forall i :: 0 <= i < |t.reply| && t.reply[i].Some? ==> t.reply[i].value < |t.promises|
  {
    var i := LowestFree(t.available, 0);
    var e := FirstExpired(t, now, timeout, 0);
    if i < |t.available| then (Take(t, i, now), Some(i))
    else if e < |t.lastUsed| then (Take(Settle(t, e, Err(TimedOut)), e, later), Some(e))
    else (t, None)
  }

  /** One more operation, with its promise and the slot its caller is told. */
  function Enlist(t: Table, promise: Option<Outcome>, slot: Option<nat>): Table {
    t.(promises := t.promises + [promise], issued := t.issued + [slot])
  }

  /** A whole start: allocate, register, send; a failed allocation or send settles the new operation at once. */
  function Start(t: Table, now: int, later: int, timeout: int, send: Outcome): (Table, Op)
    requires Shaped(t, |t.reply|)
    requires forall i :: 0 <= i < |t.reply| && t.reply[i].Some? ==> t.reply[i].value < |t.promises|
  {
    var op := |t.promises|;
    var (a, slot) := Allocate(t, now, later, timeout);
    if slot.None? then (Enlist(a, Some(Err(TryAgain)), None), op)
    else if send.Ok? then (Register(Enlist(a, None, slot), slot.value, op), op)
    else (Vacate(Enlist(a, Some(send), None), slot.value), op)
  }

  /** A reply for slot i: its operation completes, or is cancelled by a throwing callback. A slot without a handler
      ignores the reply. */
  function Deliver(t: Table, i: nat, throws: bool): Table
    requires Shaped(t, |t.reply|) && i < |t.reply|
    requires t.reply[i].Some? ==> t.reply[i].value < |t.promises|
  {
    if t.reply[i].None? then t else Settle(t, i, if throws then Err(OperationCanceled) else Ok(()))
  }

  /** Cancelling slot i: its operation is dropped without settling its promise. */
  function Cancel(t: Table, i: nat): Table
    requires Shaped(t, |t.reply|) && i < |t.reply|
  {
    var v := Vacate(t, i);
    if t.reply[i].Some? then v.(cancelled := t.cancelled + {t.reply[i].value}) else v
  }

  // ---------- every operation keeps the invariant ----------

  lemma InitialInv(ids: nat)
    ensures Inv(Initial(ids), ids)
  {
  }

  lemma VacatedInv(t: Table, u: Table, i: nat, ids: nat)
    requires Inv(t, ids) && i < ids
    requires Vacate(t, i) == u.(promises := t.promises, cancelled := t.cancelled)
    requires |u.promises| == |t.promises| && forall op: Op :: op in u.cancelled ==> op < |u.promises|
    requires forall op: Op :: InFlight(u, op) == (InFlight(t, op) && t.reply[i] != Some(op))
    ensures Inv(u, ids)
  {
    forall k | 0 <= k < ids
      ensures SlotOk(u, k)
    {
      assert SlotOk(t, k) && SlotOk(t, i);
    }
    forall op: Op
      ensures Seated(u, op)
    {
      assert Seated(t, op);
    }
  }

  lemma SettleInv(t: Table, i: nat, outcome: Outcome, ids: nat)
    requires Inv(t, ids) && i < ids
    ensures t.reply[i].Some? ==> t.reply[i].value < |t.promises|
    ensures Inv(Settle(t, i, outcome), ids)
  {
    assert SlotOk(t, i);
    VacatedInv(t, Settle(t, i, outcome), i, ids);
  }

  lemma CancelInv(t: Table, i: nat, ids: nat)
    requires Inv(t, ids) && i < ids
    ensures Inv(Cancel(t, i), ids)
  {
    assert SlotOk(t, i);
    VacatedInv(t, Cancel(t, i), i, ids);
  }

  lemma DeliverInv(t: Table, i: nat, throws: bool, ids: nat)
    requires Inv(t, ids) && i < ids
    ensures t.reply[i].Some? ==> t.reply[i].value < |t.promises|
    ensures Inv(Deliver(t, i, throws), ids)
  {
    SettleInv(t, i, if throws then Err(OperationCanceled) else Ok(()), ids);
  }

  /** Handlers of slots are handlers of operations already started. */
  lemma HandlersAreStarted(t: Table, ids: nat)
    requires Inv(t, ids)
    ensures forall i :: 0 <= i < |t.reply| && t.reply[i].Some? ==> t.reply[i].value < |t.promises|
  {
    forall i | 0 <= i < |t.reply| && t.reply[i].Some?
      ensures t.reply[i].value < |t.promises|
    {
      assert SlotOk(t, i);
    }
  }

  /** Adding an operation that is settled from the start changes nothing else. */
  lemma AddSettledInv(t: Table, outcome: Outcome, ids: nat)
    requires Inv(t, ids)
    ensures Inv(Enlist(t, Some(outcome), None), ids)
  {
    var u := Enlist(t, Some(outcome), None);
    forall k | 0 <= k < ids
      ensures SlotOk(u, k)
    {
      assert SlotOk(t, k);
    }
    forall op: Op
      ensures Seated(u, op)
    {
      assert Seated(t, op);
    }
  }

  lemma TakeRegisterInv(t: Table, i: nat, now: int, ids: nat)
    requires Inv(t, ids) && i < ids && t.available[i]
    ensures Inv(Register(Enlist(Take(t, i, now), None, Some(i)), i, |t.promises|), ids)
  {
    var op := |t.promises|;
    var u := Register(Enlist(Take(t, i, now), None, Some(i)), i, op);
    forall k | 0 <= k < ids
      ensures SlotOk(u, k)
    {
      assert SlotOk(t, k);
    }
    assert SlotOk(t, i);
    forall o: Op
      ensures Seated(u, o)
    {
      assert Seated(t, o);
    }
  }

  lemma TakeVacate(t: Table, i: nat, now: int, outcome: Outcome, ids: nat)
    requires Inv(t, ids) && i < ids && t.available[i]
    ensures Vacate(Enlist(Take(t, i, now), Some(outcome), None), i) == Enlist(t, Some(outcome), None)
  {
    assert SlotOk(t, i);
    var u := Vacate(Enlist(Take(t, i, now), Some(outcome), None), i);
    assert u.available == t.available && u.reply == t.reply && u.error == t.error && u.lastUsed == t.lastUsed;
  }

  /** Starting an operation keeps the invariant on every path: success, failed send, expiry of an old operation, no
      ID left. */
  lemma StartInv(t: Table, now: int, later: int, timeout: int, send: Outcome, ids: nat)
    requires Inv(t, ids)
    requires forall i :: 0 <= i < |t.reply| && t.reply[i].Some? ==> t.reply[i].value < |t.promises|
    ensures Inv(Start(t, now, later, timeout, send).0, ids)
  {
    var free := LowestFree(t.available, 0);
    var e := FirstExpired(t, now, timeout, 0);
    if free < ids {
      TakeRegisterInv(t, free, now, ids);
      if send.Err? {
        TakeVacate(t, free, now, send, ids);
        AddSettledInv(t, send, ids);
      }
    } else if e < ids {
      SettleInv(t, e, Err(TimedOut), ids);
      var s := Settle(t, e, Err(TimedOut));
      TakeRegisterInv(s, e, later, ids);
      if send.Err? {
        TakeVacate(s, e, later, send, ids);
        AddSettledInv(s, send, ids);
      }
    } else {
      AddSettledInv(t, Err(TryAgain), ids);
    }
  }

  /** Allocation fails exactly when every ID is busy and none is older than the timeout. A free ID comes before any
      expiry and is the lowest; otherwise the oldest-numbered expired operation, and no other, is settled with
      timed_out and loses its slot. */
  lemma AllocateExact(t: Table, now: int, later: int, timeout: int, ids: nat)
    requires Inv(t, ids)
    ensures forall i :: 0 <= i < |t.reply| && t.reply[i].Some? ==> t.reply[i].value < |t.promises|
    ensures
      var (u, slot) := Allocate(t, now, later, timeout);
      && Shaped(u, ids)
      && (slot.None? <==> forall i :: 0 <= i < ids ==> !t.available[i] && !Expired(t, i, now, timeout))
      && (slot.None? ==> u == t)
      && (slot.Some? ==>
        var i := slot.value;
        && i < ids && !u.available[i] && u.reply[i].None?
        && (forall j :: 0 <= j < ids && j != i ==> u.available[j] == t.available[j] && u.reply[j] == t.reply[j])
        && (t.available[i] ==> t.promises == u.promises && forall j :: 0 <= j < i ==> !t.available[j])
        && (!t.available[i] ==>
          && t.reply[i].Some? && u.promises == t.promises[t.reply[i].value := Some(Err(TimedOut))]
          && Expired(t, i, now, timeout)
          && (forall j :: 0 <= j < ids ==> !t.available[j])
          && (forall j :: 0 <= j < i ==> !Expired(t, j, now, timeout))))
  {
    HandlersAreStarted(t, ids);
    var f, e := LowestFree(t.available, 0), FirstExpired(t, now, timeout, 0);
    if f < ids {
      assert t.available[f] && SlotOk(t, f);
    } else if e < ids {
      assert Expired(t, e, now, timeout) && SlotOk(t, e);
    }
  }

  /** Taking the handlers of a start back out after its send has failed makes it a failed start. */
  lemma WithdrawnIsFailed(t: Table, now: int, later: int, timeout: int, error: Errc, ids: nat)
    requires Inv(t, ids)
    requires forall i :: 0 <= i < |t.reply| && t.reply[i].Some? ==> t.reply[i].value < |t.promises|
    ensures
      var op := |t.promises|;
      var u := Start(t, now, later, timeout, Ok(())).0;
      && |u.promises| == |u.issued| == op + 1 && Shaped(u, ids)
      && (u.issued[op].Some? ==>
        && u.issued[op].value < ids
        && Vacate(u.(promises := u.promises[op := Some(Err(error))], issued := u.issued[op := None]),
                  u.issued[op].value)
           == Start(t, now, later, timeout, Err(error)).0)
      && (u.issued[op].None? ==> u == Start(t, now, later, timeout, Err(error)).0)
  {
  }

  // ---------- runs ----------

  datatype Event =
    | StartEvent(now: int, later: int, send: Outcome)
    | ReplyEvent(slot: nat, throws: bool)
    | CancelEvent(op: Op)

  /** One atomic step. A reply for an ID outside the table is ignored. A caller gives up on its own operation, while it
      is still pending, by cancelling the ID it was given. */
  ghost function Next(t: Table, e: Event, timeout: int, ids: nat): Table
    requires Inv(t, ids)
  {
    HandlersAreStarted(t, ids);
    assert e.CancelEvent? ==> Seated(t, e.op);
    match e
    case StartEvent(now, later, send) => Start(t, now, later, timeout, send).0
    case ReplyEvent(i, throws) => if i < ids then Deliver(t, i, throws) else t
    case CancelEvent(op) => if InFlight(t, op) then Cancel(t, t.issued[op].value) else t
  }

  lemma NextInv(t: Table, e: Event, timeout: int, ids: nat)
    requires Inv(t, ids)
    ensures Inv(Next(t, e, timeout, ids), ids)
  {
    HandlersAreStarted(t, ids);
    assert e.CancelEvent? ==> Seated(t, e.op);
    match e
    case StartEvent(now, later, send) => StartInv(t, now, later, timeout, send, ids);
    case ReplyEvent(i, throws) => if i < ids { DeliverInv(t, i, throws, ids); }
    case CancelEvent(op) => assert Seated(t, op); if InFlight(t, op) { CancelInv(t, t.issued[op].value, ids); }
  }

  /** The state after a sequence of atomic operations; it satisfies the invariant whatever they are. */
  ghost function Run(t: Table, events: seq<Event>, timeout: int, ids: nat): (u: Table)
    requires Inv(t, ids)
    ensures Inv(u, ids)
    decreases |events|
  {
    if events == [] then t
    else
      NextInv(t, events[0], timeout, ids);
      Run(Next(t, events[0], timeout, ids), events[1..], timeout, ids)
  }

  /** A settled promise keeps its value for ever, and a cancelled or settled operation never comes back. */
  predicate Later(t: Table, u: Table) {
    && |t.promises| <= |u.promises|
    && (forall op :: 0 <= op < |t.promises| && t.promises[op].Some? ==> u.promises[op] == t.promises[op])
    && t.issued <= u.issued
    && t.cancelled <= u.cancelled
    && (forall op: Op :: op < |t.promises| && InFlight(u, op) ==> InFlight(t, op))
  }

  lemma LaterTransitive(t: Table, u: Table, v: Table)
    requires Later(t, u) && Later(u, v)
    ensures Later(t, v)
  {
  }

  lemma NextLater(t: Table, e: Event, timeout: int, ids: nat)
    requires Inv(t, ids)
    ensures Later(t, Next(t, e, timeout, ids))
  {
    HandlersAreStarted(t, ids);
    match e
    case StartEvent(now, later, send) =>
      var x := FirstExpired(t, now, timeout, 0);
      if x < ids {
        assert SlotOk(t, x);
      }
    case ReplyEvent(i, throws) =>
      if i < ids {
        assert SlotOk(t, i);
      }
    case CancelEvent(op) =>
      assert Seated(t, op);
  }

  lemma {:induction false} RunLater(t: Table, events: seq<Event>, timeout: int, ids: nat)
    requires Inv(t, ids)
    ensures Later(t, Run(t, events, timeout, ids))
    decreases |events|
  {
    if events != [] {
      NextLater(t, events[0], timeout, ids);
      NextInv(t, events[0], timeout, ids);
      RunLater(Next(t, events[0], timeout, ids), events[1..], timeout, ids);
    }
  }

  /** The ID a caller cancels is still its own: giving up on one operation touches no other. */
  lemma CancelOnlyOwn(t: Table, op: Op, timeout: int, ids: nat)
    requires Inv(t, ids) && InFlight(t, op)
    ensures
      var u := Next(t, CancelEvent(op), timeout, ids);
      && u.promises == t.promises && u.cancelled == t.cancelled + {op}
      && !InFlight(u, op)
      && (forall o: Op :: o != op ==> InFlight(u, o) == InFlight(t, o))
  {
    assert Seated(t, op);
  }

  /** A late reply completes a newer operation. From any table with a free ID: an operation is started and given up, the
      next one gets the same ID, and the reply to the first settles the second as a success. */
  lemma LateReplyCompletesNewer(t: Table, now: int, timeout: int, ids: nat)
    requires Inv(t, ids) && LowestFree(t.available, 0) < ids
    ensures
      var i, op, start := LowestFree(t.available, 0), |t.promises|, StartEvent(now, now, Ok(()));
      var u := Run(t, [start, CancelEvent(op), start, ReplyEvent(i, false)], timeout, ids);
      && op + 1 < |u.promises| && op in u.cancelled && u.promises[op].None?
      && u.promises[op + 1] == Some(Ok(())) && u.issued[op] == u.issued[op + 1] == Some(i)
  {
    var i, op, start := LowestFree(t.available, 0), |t.promises|, StartEvent(now, now, Ok(()));
    HandlersAreStarted(t, ids);
    var t1 := Next(t, start, timeout, ids);
    NextInv(t, start, timeout, ids);
    assert t1.issued[op] == Some(i) && InFlight(t1, op) && t1.available == t.available[i := false];
    var t2 := Next(t1, CancelEvent(op), timeout, ids);
    NextInv(t1, CancelEvent(op), timeout, ids);
    assert t2.available == t.available;
    HandlersAreStarted(t2, ids);
    var t3 := Next(t2, start, timeout, ids);
    NextInv(t2, start, timeout, ids);
    assert t3.reply[i] == Some(op + 1);
    RunOne(t3, [ReplyEvent(i, false)], [], timeout, ids);
    RunOne(t2, [start, ReplyEvent(i, false)], [ReplyEvent(i, false)], timeout, ids);
    RunOne(t1, [CancelEvent(op), start, ReplyEvent(i, false)], [start, ReplyEvent(i, false)], timeout, ids);
    RunOne(t, [start, CancelEvent(op), start, ReplyEvent(i, false)], [CancelEvent(op), start, ReplyEvent(i, false)],
           timeout, ids);
  }

  lemma RunOne(t: Table, events: seq<Event>, rest: seq<Event>, timeout: int, ids: nat)
    requires Inv(t, ids) && events != [] && events[1..] == rest
    ensures Inv(Next(t, events[0], timeout, ids), ids)
    ensures Run(t, events, timeout, ids) == Run(Next(t, events[0], timeout, ids), rest, timeout, ids)
  {
    NextInv(t, events[0], timeout, ids);
  }

  // ---------- conservation ----------

  ghost function FreeSlots(available: seq<bool>): set<nat> {
    set i | 0 <= i < |available| && available[i]
  }

  ghost function InFlightOps(t: Table): set<Op> {
    set op | 0 <= op < |t.promises| && InFlight(t, op)
  }

  ghost function Handlers(reply: seq<Option<Op>>): set<Op> {
    set i | 0 <= i < |reply| && reply[i].Some? :: reply[i].value
  }

  lemma {:induction false} FreeSlotsOneMore(available: seq<bool>, b: bool)
    ensures |FreeSlots(available + [b])| == |FreeSlots(available)| + (if b then 1 else 0)
  {
    var more := available + [b];
    assert FreeSlots(more) == FreeSlots(available) + (if b then {|available|} else {});
  }

  lemma {:induction false} HandlersOneMore(reply: seq<Option<Op>>, h: Option<Op>)
    requires h.Some? ==> h !in reply
    ensures |Handlers(reply + [h])| == |Handlers(reply)| + (if h.Some? then 1 else 0)
  {
    var more := reply + [h];
    assert forall i :: 0 <= i < |reply| ==> more[i] == reply[i];
    assert more[|reply|] == h;
    assert Handlers(more) == Handlers(reply) + (if h.Some? then {h.value} else {});
  }

  lemma {:induction false} Count(available: seq<bool>, reply: seq<Option<Op>>)
    requires |available| == |reply| && forall i :: 0 <= i < |reply| ==> available[i] == reply[i].None?
    requires forall i, j :: 0 <= i < j < |reply| && reply[i].Some? ==> reply[i] != reply[j]
    ensures |FreeSlots(available)| + |Handlers(reply)| == |reply|
    decreases |reply|
  {
    if reply != [] {
      var n := |reply| - 1;
      Count(available[..n], reply[..n]);
      FreeSlotsOneMore(available[..n], available[n]);
      HandlersOneMore(reply[..n], reply[n]);
      assert available == available[..n] + [available[n]] && reply == reply[..n] + [reply[n]];
    }
  }

  /** No operation sits in two slots: in-flight transaction IDs are distinct. */
  lemma DistinctIds(t: Table, ids: nat, i: nat, j: nat)
    requires Inv(t, ids) && i < j < ids && t.reply[i].Some?
    ensures t.reply[i] != t.reply[j]
  {
    assert SlotOk(t, i) && SlotOk(t, j);
  }

  /** In-flight operations are those whose handlers sit in the table. */
  lemma InFlightAreRegistered(t: Table, ids: nat)
    requires Inv(t, ids)
    ensures InFlightOps(t) == Handlers(t.reply)
  {
    forall op: Op | op in InFlightOps(t)
      ensures op in Handlers(t.reply)
    {
      assert Seated(t, op);
      assert t.reply[t.issued[op].value] == Some(op);
    }
    forall op: Op | op in Handlers(t.reply)
      ensures op in InFlightOps(t)
    {
      var i: nat :| i < ids && t.reply[i] == Some(op);
      assert SlotOk(t, i);
    }
  }

  /** Free IDs and in-flight operations add up to the number of IDs after every run. */
  lemma Conservation(t: Table, events: seq<Event>, timeout: int, ids: nat)
    requires Inv(t, ids)
    ensures var u := Run(t, events, timeout, ids); |FreeSlots(u.available)| + |InFlightOps(u)| == ids
  {
    var u := Run(t, events, timeout, ids);
    InFlightAreRegistered(u, ids);
    forall i | 0 <= i < ids
      ensures u.available[i] == u.reply[i].None?
    {
      assert SlotOk(u, i);
    }
    forall i, j | 0 <= i < j < ids && u.reply[i].Some?
      ensures u.reply[i] != u.reply[j]
    {
      DistinctIds(u, ids, i, j);
    }
    Count(u.available, u.reply);
  }
}
