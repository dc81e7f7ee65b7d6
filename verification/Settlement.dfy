/** The transaction engine with one step per mutex-held section: any number of threads start, deliver, expire and cancel
    operations, and the tails of their handlers run later, interleaved in every order. Times are left out, so expiry and
    cancellation may strike any slot at any moment and allocation may pick any free slot: every real run is among the
    runs considered here. */
module Settlement {
  import opened Bytes

  type Op = nat

  datatype Claimant = ByReply | ByExpiry | ByCancel | ByWithdrawal

  datatype Claim = Claim(who: Claimant, thread: nat)

  /** What happened to one operation: the thread that starts it, the slot its handlers were registered in, who took the
      handlers out, and how often its promise was set by its starter and through its handlers. */
  datatype Operation = Operation(starter: nat, home: Option<nat>, claims: seq<Claim>, ownSets: nat, handlerSets: nat)

  /** What is left to do after an ID is given back. Only the expiry tail clears the error handler without the lock. */
  datatype After = Nothing | Clear | ClearAndUnlock

  datatype Thread =
    | Idle
    | Starting(op: Op, slot: nat)               // has taken an ID
    | Sending(op: Op, slot: nat)                // has registered its handlers
    | Failing(op: Op, slot: nat)                // failed to send, promise not yet set
    | Settling(op: Op, slot: nat, who: Claimant) // claimed the handlers, promise not yet set
    | Releasing(slot: nat, after: After)
    | Clearing(slot: nat, after: After)

  datatype State = State(
    available: seq<bool>, locked: seq<bool>, reply: seq<Option<Op>>, error: seq<Option<Op>>,
    threads: seq<Thread>, ops: seq<Operation>)

  function Initial(slots: nat, threads: nat): State {
    State(seq(slots, i => true), seq(slots, i => false), seq(slots, i => None), seq(slots, i => None),
          seq(threads, i => Idle), [])
  }

  predicate Shaped(s: State) {
    |s.available| == |s.locked| == |s.reply| == |s.error|
  }

  datatype Step =
    | Refuse(thread: nat)                       // no ID to be had
    | Take(thread: nat, slot: nat)
    | Register(thread: nat)
    | Sent(thread: nat, ok: bool)
    | RegisterAndSend(thread: nat, ok: bool)    // the two steps above as one
    | Deliver(thread: nat, slot: nat)
    | Expire(thread: nat, slot: nat)
    | Cancel(thread: nat, slot: nat)
    | SetPromise(thread: nat)
    | Release(thread: nat)
    | Finish(thread: nat)

  // ---------- the steps ----------

  function Move(s: State, k: nat, t: Thread): (r: State)
    requires Shaped(s) && k < |s.threads|
    ensures Shaped(r) && |r.threads| == |s.threads|
  {
    s.(threads := s.threads[k := t])
  }

  /** Takes the handlers out of slot i on behalf of thread k. */
  function Seize(s: State, k: nat, i: nat, who: Claimant): (r: State)
    requires Shaped(s) && i < |s.reply|
    ensures Shaped(r) && |r.threads| == |s.threads|
  {
    var v := s.(reply := s.reply[i := None], error := s.error[i := None]);
    if s.reply[i].Some? && s.reply[i].value < |s.ops| then
      var op := s.reply[i].value;
      v.(ops := s.ops[op := s.ops[op].(claims := s.ops[op].claims + [Claim(who, k)])])
    else v
  }

  function DoRegister(s: State, k: nat): (r: State)
    requires Shaped(s) && k < |s.threads|
    ensures Shaped(r) && |r.threads| == |s.threads|
  {
    match s.threads[k]
    case Starting(op, i) =>
      if i < |s.reply| && !s.locked[i] && op < |s.ops| then
        Move(s.(reply := s.reply[i := Some(op)], error := s.error[i := Some(op)],
                ops := s.ops[op := s.ops[op].(home := Some(i))]), k, Sending(op, i))
      else s
    case _ => s
  }

  function DoSent(s: State, k: nat, ok: bool): (r: State)
    requires Shaped(s) && k < |s.threads|
    ensures Shaped(r) && |r.threads| == |s.threads|
  {
    match s.threads[k]
    case Sending(op, i) =>
      if ok then Move(s, k, Idle)
      else if i < |s.reply| && !s.locked[i] then Move(Seize(s, k, i, ByWithdrawal), k, Failing(op, i))
      else s
    case _ => s
  }

  function DoSetPromise(s: State, k: nat): (r: State)
    requires Shaped(s) && k < |s.threads|
    ensures Shaped(r) && |r.threads| == |s.threads|
  {
    match s.threads[k]
    case Failing(op, i) =>
      if op < |s.ops| then
        Move(s.(ops := s.ops[op := s.ops[op].(ownSets := s.ops[op].ownSets + 1)]), k, Releasing(i, Nothing))
      else s
    case Settling(op, i, who) =>
      if op < |s.ops| then
        Move(s.(ops := s.ops[op := s.ops[op].(handlerSets := s.ops[op].handlerSets + 1)]), k,
             Releasing(i, if who.ByReply? then ClearAndUnlock else Clear))
      else s
    case _ => s
  }

  function DoRelease(s: State, k: nat): (r: State)
    requires Shaped(s) && k < |s.threads|
    ensures Shaped(r) && |r.threads| == |s.threads|
  {
    match s.threads[k]
    case Releasing(i, after) =>
      if i < |s.available| then
        Move(s.(available := s.available[i := true]), k, if after.Nothing? then Idle else Clearing(i, after))
      else s
    case _ => s
  }

  function DoFinish(s: State, k: nat): (r: State)
    requires Shaped(s) && k < |s.threads|
    ensures Shaped(r) && |r.threads| == |s.threads|
  {
    match s.threads[k]
    case Clearing(i, after) =>
      if i < |s.error| then
        var v := s.(error := s.error[i := None]);
        Move(if after.ClearAndUnlock? then v.(locked := s.locked[i := false]) else v, k, Idle)
      else s
    case _ => s
  }

  /** Delivery keeps the slot locked until its tail is done. */
  function DoDeliver(s: State, k: nat, i: nat): (r: State)
    requires Shaped(s) && k < |s.threads| && i < |s.reply|
    ensures Shaped(r) && |r.threads| == |s.threads|
  {
    if s.reply[i].Some? then
      Move(Seize(s, k, i, ByReply).(locked := s.locked[i := true]), k, Settling(s.reply[i].value, i, ByReply))
    else s
  }

  /** Expiry settles through the error handler; a slot without one is only released. */
  function DoExpire(s: State, k: nat, i: nat): (r: State)
    requires Shaped(s) && k < |s.threads| && i < |s.reply|
    ensures Shaped(r) && |r.threads| == |s.threads|
  {
    Move(Seize(s, k, i, ByExpiry), k,
         if s.error[i].Some? then Settling(s.error[i].value, i, ByExpiry) else Releasing(i, Nothing))
  }

  /** A step that is not possible leaves the state as it is. */
  function Apply(s: State, step: Step): (r: State)
    requires Shaped(s)
    ensures Shaped(r)
  {
    var k := step.thread;
    if k >= |s.threads| then s
    else
      match step
      case Refuse(_) =>
        if s.threads[k].Idle? then s.(ops := s.ops + [Operation(k, None, [], 1, 0)]) else s
      case Take(_, i) =>
        if s.threads[k].Idle? && i < |s.available| && s.available[i] then
          Move(s.(available := s.available[i := false], ops := s.ops + [Operation(k, None, [], 0, 0)]), k,
               Starting(|s.ops|, i))
        else s
      case Register(_) => DoRegister(s, k)
      case Sent(_, ok) => DoSent(s, k, ok)
      case RegisterAndSend(_, ok) => DoSent(DoRegister(s, k), k, ok)
      case Deliver(_, i) => if s.threads[k].Idle? && i < |s.reply| && !s.locked[i] then DoDeliver(s, k, i) else s
      case Expire(_, i) => if s.threads[k].Idle? && i < |s.reply| && !s.locked[i] then DoExpire(s, k, i) else s
      case Cancel(_, i) =>
        if s.threads[k].Idle? && i < |s.reply| && !s.locked[i] then
          Move(Seize(s, k, i, ByCancel), k, Releasing(i, Nothing))
        else s
      case SetPromise(_) => DoSetPromise(s, k)
      case Release(_) => DoRelease(s, k)
      case Finish(_) => DoFinish(s, k)
  }

  /** The state after a schedule of steps. */
  function Run(s: State, schedule: seq<Step>): (r: State)
    requires Shaped(s)
    ensures Shaped(r)
    decreases |schedule|
  {
    if schedule == [] then s else Run(Apply(s, schedule[0]), schedule[1..])
  }

  lemma {:induction false} RunConcat(s: State, a: seq<Step>, b: seq<Step>)
    requires Shaped(s)
    ensures Run(s, a + b) == Run(Run(s, a), b)
    decreases |a|
  {
    if a == [] {
      assert a + b == b;
    } else {
      assert (a + b)[1..] == a[1..] + b;
      RunConcat(Apply(s, a[0]), a[1..], b);
    }
  }

  /** Two steps as a run. */
  // ---------- what every step keeps ----------

  /** Handlers in a slot are unclaimed and sit where they were registered. */
  predicate SlotOk(s: State, i: nat)
    requires Shaped(s) && i < |s.reply|
  {
    && (s.error[i].Some? ==> s.error[i] == s.reply[i])
    && (s.reply[i].Some? ==>
      var op := s.reply[i].value;
      op < |s.ops| && s.ops[op].home == Some(i) && s.ops[op].claims == [])
  }

  predicate ThreadOk(s: State, k: nat)
    requires k < |s.threads|
  {
    match s.threads[k]
    case Starting(op, _) => op < |s.ops| && s.ops[op].starter == k && s.ops[op].home.None? && s.ops[op].ownSets == 0
    case Sending(op, i) =>
      op < |s.ops| && s.ops[op].starter == k && s.ops[op].ownSets == 0 && s.ops[op].home == Some(i)
    case Failing(op, _) => op < |s.ops| && s.ops[op].starter == k && s.ops[op].ownSets == 0
    case Settling(op, _, who) =>
      && op < |s.ops| && s.ops[op].claims == [Claim(who, k)] && s.ops[op].handlerSets == 0
      && (who.ByReply? || who.ByExpiry?)
    case _ => true
  }

  predicate OpOk(o: Operation) {
    && |o.claims| <= 1
    && (o.home.None? ==> o.claims == [])
    && o.ownSets <= 1 && o.handlerSets <= 1
    && (o.handlerSets == 1 ==> |o.claims| == 1 && (o.claims[0].who.ByReply? || o.claims[0].who.ByExpiry?))
  }

  ghost predicate Inv(s: State) {
    && Shaped(s)
    && (forall i :: 0 <= i < |s.reply| ==> SlotOk(s, i))
    && (forall k :: 0 <= k < |s.threads| ==> ThreadOk(s, k))
    && (forall op :: 0 <= op < |s.ops| ==> OpOk(s.ops[op]))
  }

  lemma SeizeInv(s: State, k: nat, i: nat, who: Claimant)
    requires Inv(s) && i < |s.reply| && k < |s.threads| && s.threads[k].Idle?
    ensures Inv(Seize(s, k, i, who))
    ensures s.reply[i].Some? ==>
      var op := s.reply[i].value;
      op < |s.ops| && Seize(s, k, i, who).ops[op].claims == [Claim(who, k)] && s.ops[op].handlerSets == 0
  {
    var r := Seize(s, k, i, who);
    assert SlotOk(s, i);
    assert s.reply[i].Some? ==> OpOk(s.ops[s.reply[i].value]);
    forall j | 0 <= j < |s.reply|
      ensures SlotOk(r, j)
    {
      assert SlotOk(s, j);
    }
    forall j | 0 <= j < |s.threads|
      ensures ThreadOk(r, j)
    {
      assert ThreadOk(s, j);
    }
  }

  lemma RegisterInv(s: State, k: nat)
    requires Inv(s) && k < |s.threads|
    ensures Inv(DoRegister(s, k))
  {
    var r := DoRegister(s, k);
    assert ThreadOk(s, k);
    forall j | 0 <= j < |s.reply|
      ensures SlotOk(r, j)
    {
      assert SlotOk(s, j);
    }
    forall j | 0 <= j < |s.threads|
      ensures ThreadOk(r, j)
    {
      assert ThreadOk(s, j);
    }
  }

  lemma SetPromiseInv(s: State, k: nat)
    requires Inv(s) && k < |s.threads|
    ensures Inv(DoSetPromise(s, k))
  {
    var r := DoSetPromise(s, k);
    assert ThreadOk(s, k);
    forall j | 0 <= j < |s.reply|
      ensures SlotOk(r, j)
    {
      assert SlotOk(s, j);
    }
    forall j | 0 <= j < |s.threads|
      ensures ThreadOk(r, j)
    {
      assert ThreadOk(s, j);
    }
  }

  /** A thread that does not hold an operation may become anything that is in order by itself. */
  lemma MoveInv(s: State, k: nat, t: Thread)
    requires Inv(s) && k < |s.threads| && ThreadOk(Move(s, k, t), k)
    ensures Inv(Move(s, k, t))
  {
    var r := Move(s, k, t);
    forall j | 0 <= j < |s.threads|
      ensures ThreadOk(r, j)
    {
      assert ThreadOk(s, j);
    }
    forall i | 0 <= i < |s.reply|
      ensures SlotOk(r, i)
    {
      assert SlotOk(s, i);
    }
  }

  lemma SentInv(s: State, k: nat, ok: bool)
    requires Inv(s) && k < |s.threads|
    ensures Inv(DoSent(s, k, ok))
  {
    assert ThreadOk(s, k);
    MoveInv(s, k, Idle);
    match s.threads[k]
    case Sending(op, i) =>
      if !ok && i < |s.reply| && !s.locked[i] {
        var idle := Move(s, k, Idle);
        SeizeInv(idle, k, i, ByWithdrawal);
        MoveInv(Seize(idle, k, i, ByWithdrawal), k, Failing(op, i));
        assert DoSent(s, k, ok) == Move(Seize(idle, k, i, ByWithdrawal), k, Failing(op, i));
      }
    case _ =>
  }

  lemma DeliverInv(s: State, k: nat, i: nat)
    requires Inv(s) && k < |s.threads| && s.threads[k].Idle? && i < |s.reply|
    ensures Inv(DoDeliver(s, k, i))
  {
    if s.reply[i].Some? {
      SeizeInv(s, k, i, ByReply);
      var t := Settling(s.reply[i].value, i, ByReply);
      MoveInv(Seize(s, k, i, ByReply), k, t);
      FlagsInv(Move(Seize(s, k, i, ByReply), k, t), s.available, s.locked[i := true]);
    }
  }

  lemma ExpireInv(s: State, k: nat, i: nat)
    requires Inv(s) && k < |s.threads| && s.threads[k].Idle? && i < |s.reply|
    ensures Inv(DoExpire(s, k, i))
  {
    assert SlotOk(s, i);
    SeizeInv(s, k, i, ByExpiry);
    MoveInv(Seize(s, k, i, ByExpiry), k,
            if s.error[i].Some? then Settling(s.error[i].value, i, ByExpiry) else Releasing(i, Nothing));
  }

  /** Locks and free IDs play no part in the invariant, nor does a missing error handler. */
  lemma FlagsInv(s: State, available: seq<bool>, locked: seq<bool>)
    requires Inv(s) && |available| == |locked| == |s.available|
    ensures Inv(s.(available := available, locked := locked))
  {
    var r := s.(available := available, locked := locked);
    assert forall i :: 0 <= i < |s.reply| && SlotOk(s, i) ==> SlotOk(r, i);
    assert forall k :: 0 <= k < |s.threads| && ThreadOk(s, k) ==> ThreadOk(r, k);
  }

  lemma ClearInv(s: State, i: nat)
    requires Inv(s) && i < |s.error|
    ensures Inv(s.(error := s.error[i := None]))
  {
    var r := s.(error := s.error[i := None]);
    assert forall j :: 0 <= j < |s.reply| && SlotOk(s, j) ==> SlotOk(r, j);
    assert forall k :: 0 <= k < |s.threads| && ThreadOk(s, k) ==> ThreadOk(r, k);
  }

  lemma ReleaseInv(s: State, k: nat)
    requires Inv(s) && k < |s.threads|
    ensures Inv(DoRelease(s, k))
  {
    match s.threads[k]
    case Releasing(i, after) =>
      if i < |s.available| {
        FlagsInv(s, s.available[i := true], s.locked);
        MoveInv(s.(available := s.available[i := true]), k, if after.Nothing? then Idle else Clearing(i, after));
      }
    case _ =>
  }

  lemma FinishInv(s: State, k: nat)
    requires Inv(s) && k < |s.threads|
    ensures Inv(DoFinish(s, k))
  {
    match s.threads[k]
    case Clearing(i, after) =>
      if i < |s.error| {
        ClearInv(s, i);
        var v := s.(error := s.error[i := None]);
        FlagsInv(v, v.available, s.locked[i := false]);
        MoveInv(if after.ClearAndUnlock? then v.(locked := s.locked[i := false]) else v, k, Idle);
      }
    case _ =>
  }

  /** A new operation that no thread and no slot knows. */
  lemma EnlistInv(s: State, o: Operation)
    requires Inv(s) && OpOk(o)
    ensures Inv(s.(ops := s.ops + [o]))
  {
    var r := s.(ops := s.ops + [o]);
    assert forall i :: 0 <= i < |s.reply| && SlotOk(s, i) ==> SlotOk(r, i);
    assert forall k :: 0 <= k < |s.threads| && ThreadOk(s, k) ==> ThreadOk(r, k);
  }

  lemma TakeInv(s: State, k: nat, i: nat)
    requires Inv(s) && k < |s.threads| && i < |s.available|
    ensures Inv(Apply(s, Take(k, i)))
  {
    var o := Operation(k, None, [], 0, 0);
    EnlistInv(s, o);
    var v := s.(ops := s.ops + [o]);
    FlagsInv(v, s.available[i := false], s.locked);
    MoveInv(v.(available := s.available[i := false]), k, Starting(|s.ops|, i));
  }

  lemma CancelInv(s: State, k: nat, i: nat)
    requires Inv(s) && k < |s.threads| && s.threads[k].Idle? && i < |s.reply|
    ensures Inv(Move(Seize(s, k, i, ByCancel), k, Releasing(i, Nothing)))
  {
    SeizeInv(s, k, i, ByCancel);
    MoveInv(Seize(s, k, i, ByCancel), k, Releasing(i, Nothing));
  }

  lemma ApplyInv(s: State, step: Step)
    requires Inv(s)
    ensures Inv(Apply(s, step))
  {
    var k := step.thread;
    if k < |s.threads| {
      match step
      case Refuse(_) => EnlistInv(s, Operation(k, None, [], 1, 0));
      case Take(_, i) => if i < |s.available| { TakeInv(s, k, i); }
      case Register(_) => RegisterInv(s, k);
      case Sent(_, ok) => SentInv(s, k, ok);
      case RegisterAndSend(_, ok) =>
        RegisterInv(s, k);
        SentInv(DoRegister(s, k), k, ok);
      case Deliver(_, i) => if s.threads[k].Idle? && i < |s.reply| { DeliverInv(s, k, i); }
      case Expire(_, i) => if s.threads[k].Idle? && i < |s.reply| { ExpireInv(s, k, i); }
      case Cancel(_, i) => if s.threads[k].Idle? && i < |s.reply| { CancelInv(s, k, i); }
      case SetPromise(_) => SetPromiseInv(s, k);
      case Release(_) => ReleaseInv(s, k);
      case Finish(_) => FinishInv(s, k);
    }
  }

  lemma {:induction false} RunInv(s: State, schedule: seq<Step>)
    requires Inv(s)
    ensures Inv(Run(s, schedule))
    decreases |schedule|
  {
    if schedule != [] {
      ApplyInv(s, schedule[0]);
      RunInv(Apply(s, schedule[0]), schedule[1..]);
    }
  }

  // ---------- settled at most once ----------

  function Sets(o: Operation): nat {
    o.ownSets + o.handlerSets
  }

  /** Under every schedule, even one that separates registration from sending, an operation's handlers are claimed at
      most once; through them its promise is set at most once, and only if the claim was a reply or an expiry. */
  lemma ClaimedAtMostOnce(slots: nat, threads: nat, schedule: seq<Step>, op: Op)
    requires op < |Run(Initial(slots, threads), schedule).ops|
    ensures
      var o := Run(Initial(slots, threads), schedule).ops[op];
      && |o.claims| <= 1 && o.handlerSets <= 1 && o.ownSets <= 1
      && (o.handlerSets == 1 ==> |o.claims| == 1 && (o.claims[0].who.ByReply? || o.claims[0].who.ByExpiry?))
  {
    RunInv(Initial(slots, threads), schedule);
    assert OpOk(Run(Initial(slots, threads), schedule).ops[op]);
  }
}
