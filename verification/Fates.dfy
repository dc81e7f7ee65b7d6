/** What becomes of an operation under every schedule of lock-held sections: exactly when its promise is set twice,
    exactly when an expiry settles what it finds, and exactly when an operation is lost. */
module Fates {
  import opened Bytes
  import opened Settlement

  // ---------- where an operation stands ----------

  /** The starting thread has set the promise on its failure path, or is about to. */
  predicate StarterSide(s: State, op: Op)
    requires op < |s.ops|
  {
    var k := s.ops[op].starter;
    s.ops[op].ownSets > 0 || (k < |s.threads| && s.threads[k].Failing? && s.threads[k].op == op)
  }

  /** A thread that claimed the handlers has set the promise through them, or is about to. */
  predicate HandlerSide(s: State, op: Op)
    requires op < |s.ops|
  {
    var o := s.ops[op];
    || o.handlerSets > 0
    || (o.claims != [] && var k := o.claims[0].thread;
        k < |s.threads| && s.threads[k].Settling? && s.threads[k].op == op)
  }

  /** The reply handler is in the slot where it was registered. */
  predicate Seated(s: State, op: Op)
    requires Shaped(s) && op < |s.ops|
  {
    var home := s.ops[op].home;
    home.Some? && home.value < |s.reply| && s.reply[home.value] == Some(op)
  }

  /** The operation has an ID but no handlers yet. */
  predicate Unregistered(s: State, op: Op)
    requires op < |s.ops|
  {
    var k := s.ops[op].starter;
    k < |s.threads| && s.threads[k].Starting? && s.threads[k].op == op
  }

  /** The caller that started the operation has cancelled it. */
  predicate GivenUp(o: Operation) {
    o.claims != [] && o.claims[0].who.ByCancel? && o.claims[0].thread == o.starter
  }

  /** Settled, about to be settled, still able to be settled by a reply, or given up by its own caller. */
  predicate Accounted(s: State, op: Op)
    requires Shaped(s) && op < |s.ops|
  {
    StarterSide(s, op) || HandlerSide(s, op) || Unregistered(s, op) || Seated(s, op) || GivenUp(s.ops[op])
  }

  // ---------- what a step does to an operation ----------

  /** Thread k is about to take the handlers out of slot i because the command of `op` did not go out. */
  predicate Withdraws(s: State, k: nat, ok: bool, op: Op)
    requires Shaped(s) && k < |s.threads|
  {
    && !ok && s.threads[k].Sending? && s.threads[k].op == op
    && s.threads[k].slot < |s.reply| && !s.locked[s.threads[k].slot]
  }

  /** The command of an operation that a reply or an expiry has already settled, or is settling, fails to go out. */
  predicate FailsLate(s: State, step: Step, op: Op)
    requires Shaped(s)
  {
    var k := step.thread;
    && k < |s.threads| && (step.Sent? || step.RegisterAndSend?)
    && var v := if step.Sent? then s else DoRegister(s, k);
       op < |v.ops| && Withdraws(v, k, step.ok, op) && HandlerSide(v, op)
  }

  /** The tail of an earlier delivery or expiry clears the slot of an operation registered there since. */
  predicate Strays(s: State, step: Step, op: Op)
    requires Shaped(s)
  {
    var k := step.thread;
    && step.Finish? && k < |s.threads| && s.threads[k].Clearing?
    && s.threads[k].slot < |s.reply| && s.reply[s.threads[k].slot] == Some(op)
  }

  /** Another operation is registered in the slot of this one. */
  predicate Overwritten(s: State, k: nat, op: Op)
    requires Shaped(s) && k < |s.threads|
  {
    && s.threads[k].Starting? && s.threads[k].op < |s.ops|
    && s.threads[k].slot < |s.reply| && !s.locked[s.threads[k].slot] && s.reply[s.threads[k].slot] == Some(op)
  }

  /** The failed command of another operation empties the slot of this one. */
  predicate Evicted(s: State, k: nat, ok: bool, op: Op)
    requires Shaped(s) && k < |s.threads|
  {
    s.threads[k].Sending? && s.threads[k].op != op && Withdraws(s, k, ok, s.threads[k].op)
    && s.reply[s.threads[k].slot] == Some(op)
  }

  /** The operation fails to start: no ID is to be had for it, or its own command does not go out. */
  predicate FailsToStart(s: State, step: Step, op: Op)
    requires Shaped(s)
  {
    var k := step.thread;
    k < |s.threads| &&
    match step
    case Refuse(_) => s.threads[k].Idle? && op == |s.ops|
    case Sent(_, ok) => Withdraws(s, k, ok, op)
    case RegisterAndSend(_, ok) => Withdraws(DoRegister(s, k), k, ok, op)
    case _ => false
  }

  /** A caller cancels the ID it was given, and finds the operation of another caller under it. */
  predicate CancelledByOther(s: State, k: nat, i: nat, op: Op)
    requires Shaped(s) && i < |s.reply|
  {
    s.reply[i] == Some(op) && op < |s.ops| && s.ops[op].starter != k
  }

  /** The four ways to lose an operation: expiry without an error handler, an overwriting registration, a withdrawal
      by another operation's starter, a cancellation by another operation's caller. */
  predicate Drops(s: State, step: Step, op: Op)
    requires Shaped(s)
  {
    var k := step.thread;
    k < |s.threads| &&
    match step
    case Expire(_, i) =>
      s.threads[k].Idle? && i < |s.reply| && !s.locked[i] && s.reply[i] == Some(op) && s.error[i].None?
    case Cancel(_, i) => s.threads[k].Idle? && i < |s.reply| && !s.locked[i] && CancelledByOther(s, k, i, op)
    case Register(_) => Overwritten(s, k, op)
    case Sent(_, ok) => Evicted(s, k, ok, op)
    case RegisterAndSend(_, ok) => Overwritten(s, k, op) || Evicted(DoRegister(s, k), k, ok, op)
    case _ => false
  }

  // ... and whether that ever happens in a schedule

  predicate EverFailsLate(s: State, schedule: seq<Step>, op: Op)
    requires Shaped(s)
    decreases |schedule|
  {
    schedule != [] && (FailsLate(s, schedule[0], op) || EverFailsLate(Apply(s, schedule[0]), schedule[1..], op))
  }

  predicate EverStrays(s: State, schedule: seq<Step>, op: Op)
    requires Shaped(s)
    decreases |schedule|
  {
    schedule != [] && (Strays(s, schedule[0], op) || EverStrays(Apply(s, schedule[0]), schedule[1..], op))
  }

  predicate EverDrops(s: State, schedule: seq<Step>, op: Op)
    requires Shaped(s)
    decreases |schedule|
  {
    schedule != [] && (Drops(s, schedule[0], op) || EverDrops(Apply(s, schedule[0]), schedule[1..], op))
  }

  predicate EverFailsToStart(s: State, schedule: seq<Step>, op: Op)
    requires Shaped(s)
    decreases |schedule|
  {
    schedule != [] && (FailsToStart(s, schedule[0], op) || EverFailsToStart(Apply(s, schedule[0]), schedule[1..], op))
  }

  // ---------- the four histories, kept along every run ----------

  /** What has happened to an operation so far: it failed to start, its command failed late, its slot was cleared by a
      stray tail, it was dropped. */
  datatype History = History(failed: bool, late: bool, stray: bool, dropped: bool)

  const CLEAN := History(false, false, false, false)

  predicate Fate(s: State, op: Op, h: History)
    requires Shaped(s)
  {
    if op >= |s.ops| then h == CLEAN
    else
      && (h.failed <==> StarterSide(s, op))
      && (StarterSide(s, op) ==> !Seated(s, op))
      && (h.late <==> StarterSide(s, op) && HandlerSide(s, op))
      && (s.ops[op].home.None? ==> !h.stray)
      && (Seated(s, op) ==> (s.error[s.ops[op].home.value].Some? <==> !h.stray))
      && (Accounted(s, op) <==> !h.dropped || StarterSide(s, op))
  }

  function After(s: State, step: Step, op: Op, h: History): History
    requires Shaped(s)
  {
    History(h.failed || FailsToStart(s, step, op), h.late || FailsLate(s, step, op), h.stray || Strays(s, step, op),
            h.dropped || Drops(s, step, op))
  }

  /** The facts of the invariant that bear on one operation and one thread. */
  lemma Facts(s: State, k: nat, op: Op)
    requires Inv(s) && k < |s.threads|
    ensures ThreadOk(s, k)
    ensures op < |s.ops| ==>
      && OpOk(s.ops[op])
      && (s.ops[op].starter < |s.threads| ==> ThreadOk(s, s.ops[op].starter))
      && (s.ops[op].claims != [] && s.ops[op].claims[0].thread < |s.threads| ==>
           ThreadOk(s, s.ops[op].claims[0].thread))
      && (Seated(s, op) ==> SlotOk(s, s.ops[op].home.value))
  {
  }

  /** An operation in a slot is seated there, unclaimed. */
  lemma InSlot(s: State, i: nat)
    requires Inv(s) && i < |s.reply|
    ensures SlotOk(s, i)
    ensures s.reply[i].Some? ==> s.reply[i].value < |s.ops| && Seated(s, s.reply[i].value)
  {
  }

  /** Threads that decide where the operation stands. */
  predicate Concerns(t: Thread, op: Op) {
    (t.Starting? || t.Failing? || t.Settling?) && t.op == op
  }

  /** A step that leaves an operation, its slot and the threads it depends on alone. */
  lemma FateFrame(s: State, r: State, op: Op, h: History)
    requires Shaped(s) && Shaped(r) && Fate(s, op, h) && |r.threads| == |s.threads|
    requires op < |s.ops| && op < |r.ops| && r.ops[op] == s.ops[op]
    requires Seated(r, op) == Seated(s, op)
    requires Seated(s, op) ==> r.error[s.ops[op].home.value] == s.error[s.ops[op].home.value]
    requires forall j :: 0 <= j < |s.threads| && (Concerns(s.threads[j], op) || Concerns(r.threads[j], op)) ==>
      r.threads[j] == s.threads[j]
    ensures Fate(r, op, h)
  {
  }

  lemma FateRefuse(s: State, k: nat, op: Op, h: History)
    requires Inv(s) && Fate(s, op, h)
    ensures Fate(s.(ops := s.ops + [Operation(k, None, [], 1, 0)]), op, h.(failed := h.failed || op == |s.ops|))
  {
    if k < |s.threads| {
      Facts(s, k, op);
    }
  }

  lemma FateTake(s: State, k: nat, i: nat, op: Op, h: History)
    requires Inv(s) && Fate(s, op, h)
    ensures Fate(Apply(s, Take(k, i)), op, h)
  {
    if k < |s.threads| {
      Facts(s, k, op);
    }
  }

  lemma FateRegister(s: State, k: nat, op: Op, h: History)
    requires Inv(s) && Fate(s, op, h) && k < |s.threads|
    ensures Fate(DoRegister(s, k), op, h.(dropped := h.dropped || Overwritten(s, k, op)))
  {
    Facts(s, k, op);
    if s.threads[k].Starting? && s.threads[k].slot < |s.reply| {
      InSlot(s, s.threads[k].slot);
      if op < |s.ops| && s.threads[k].op != op && !Overwritten(s, k, op) {
        FateFrame(s, DoRegister(s, k), op, h);
      }
    }
  }

  /** A failed send, seen from the operation whose command it was. */
  lemma FateOwnFailure(s: State, k: nat, op: Op, h: History)
    requires Inv(s) && Fate(s, op, h) && k < |s.threads| && Withdraws(s, k, false, op)
    ensures op < |s.ops|
    ensures Fate(DoSent(s, k, false), op, h.(failed := true, late := h.late || HandlerSide(s, op)))
  {
    Facts(s, k, op);
    InSlot(s, s.threads[k].slot);
  }

  /** A failed send, seen from an operation it evicts. */
  lemma FateEvicted(s: State, k: nat, op: Op, h: History)
    requires Inv(s) && Fate(s, op, h) && k < |s.threads| && Evicted(s, k, false, op)
    ensures Fate(DoSent(s, k, false), op, h.(dropped := true))
  {
    InSlot(s, s.threads[k].slot);
    Facts(s, k, op);
  }

  /** A failed send, seen from any other operation. */
  lemma FateOtherFailure(s: State, k: nat, op: Op, h: History)
    requires Inv(s) && Fate(s, op, h) && k < |s.threads| && s.threads[k].Sending? && s.threads[k].op != op
    requires !Evicted(s, k, false, op)
    ensures Fate(DoSent(s, k, false), op, h)
  {
    Facts(s, k, op);
    if s.threads[k].slot < |s.reply| {
      InSlot(s, s.threads[k].slot);
    }
    if op < |s.ops| {
      FateFrame(s, DoSent(s, k, false), op, h);
    }
  }

  lemma FateSentOut(s: State, k: nat, op: Op, h: History)
    requires Inv(s) && Fate(s, op, h) && k < |s.threads|
    ensures Fate(DoSent(s, k, true), op, h)
  {
    Facts(s, k, op);
  }

  lemma FateSent(s: State, k: nat, ok: bool, op: Op, h: History)
    requires Inv(s) && Fate(s, op, h) && k < |s.threads|
    ensures
      var late := op < |s.ops| && Withdraws(s, k, ok, op) && HandlerSide(s, op);
      Fate(DoSent(s, k, ok), op, h.(failed := h.failed || Withdraws(s, k, ok, op), late := h.late || late,
                                    dropped := h.dropped || Evicted(s, k, ok, op)))
  {
    if ok {
      FateSentOut(s, k, op, h);
    } else if Withdraws(s, k, ok, op) {
      FateOwnFailure(s, k, op, h);
    } else if Evicted(s, k, ok, op) {
      FateEvicted(s, k, op, h);
    } else if s.threads[k].Sending? && s.threads[k].op != op {
      FateOtherFailure(s, k, op, h);
    }
  }

  lemma FateDeliver(s: State, k: nat, i: nat, op: Op, h: History)
    requires Inv(s) && Fate(s, op, h) && k < |s.threads| && s.threads[k].Idle? && i < |s.reply|
    ensures Fate(DoDeliver(s, k, i), op, h)
  {
    InSlot(s, i);
    Facts(s, k, op);
  }

  lemma FateExpire(s: State, k: nat, i: nat, op: Op, h: History)
    requires Inv(s) && Fate(s, op, h) && k < |s.threads| && s.threads[k].Idle? && i < |s.reply|
    ensures Fate(DoExpire(s, k, i), op, h.(dropped := h.dropped || (s.reply[i] == Some(op) && s.error[i].None?)))
  {
    InSlot(s, i);
    Facts(s, k, op);
  }

  lemma FateCancel(s: State, k: nat, i: nat, op: Op, h: History)
    requires Inv(s) && Fate(s, op, h) && k < |s.threads| && s.threads[k].Idle? && i < |s.reply|
    ensures Fate(Move(Seize(s, k, i, ByCancel), k, Releasing(i, Nothing)), op,
                 h.(dropped := h.dropped || CancelledByOther(s, k, i, op)))
  {
    InSlot(s, i);
    Facts(s, k, op);
  }

  lemma FateSetPromise(s: State, k: nat, op: Op, h: History)
    requires Inv(s) && Fate(s, op, h) && k < |s.threads|
    ensures Fate(DoSetPromise(s, k), op, h)
  {
    Facts(s, k, op);
    if op < |s.ops| && !Concerns(s.threads[k], op) {
      FateFrame(s, DoSetPromise(s, k), op, h);
    }
  }

  lemma FateRelease(s: State, k: nat, op: Op, h: History)
    requires Inv(s) && Fate(s, op, h) && k < |s.threads|
    ensures Fate(DoRelease(s, k), op, h)
  {
  }

  lemma FateFinish(s: State, k: nat, op: Op, h: History)
    requires Inv(s) && Fate(s, op, h) && k < |s.threads|
    ensures Fate(DoFinish(s, k), op, h.(stray := h.stray || Strays(s, Finish(k), op)))
  {
    if s.threads[k].Clearing? && s.threads[k].slot < |s.reply| {
      InSlot(s, s.threads[k].slot);
    }
    if op < |s.ops| && !Strays(s, Finish(k), op) {
      FateFrame(s, DoFinish(s, k), op, h);
    }
  }

  lemma FateRegisterAndSend(s: State, k: nat, ok: bool, op: Op, h: History)
    requires Inv(s) && Fate(s, op, h) && k < |s.threads|
    ensures Fate(DoSent(DoRegister(s, k), k, ok), op, After(s, RegisterAndSend(k, ok), op, h))
  {
    RegisterInv(s, k);
    FateRegister(s, k, op, h);
    FateSent(DoRegister(s, k), k, ok, op, h.(dropped := h.dropped || Overwritten(s, k, op)));
  }

  lemma FateClaim(s: State, step: Step, op: Op, h: History)
    requires Inv(s) && Fate(s, op, h) && step.thread < |s.threads| && (step.Deliver? || step.Expire? || step.Cancel?)
    ensures Fate(Apply(s, step), op, After(s, step, op, h))
  {
    var k, i := step.thread, step.slot;
    if s.threads[k].Idle? && i < |s.reply| {
      match step
      case Deliver(_, _) => FateDeliver(s, k, i, op, h);
      case Expire(_, _) => FateExpire(s, k, i, op, h);
      case Cancel(_, _) => FateCancel(s, k, i, op, h);
    }
  }

  lemma FateApply(s: State, step: Step, op: Op, h: History)
    requires Inv(s) && Fate(s, op, h)
    ensures Fate(Apply(s, step), op, After(s, step, op, h))
  {
    var k := step.thread;
    if k < |s.threads| {
      match step
      case Refuse(_) => FateRefuse(s, k, op, h);
      case Take(_, i) => FateTake(s, k, i, op, h);
      case Register(_) => FateRegister(s, k, op, h);
      case Sent(_, ok) => FateSent(s, k, ok, op, h);
      case RegisterAndSend(_, ok) =>
        FateRegisterAndSend(s, k, ok, op, h);
      case Deliver(_, _) => FateClaim(s, step, op, h);
      case Expire(_, _) => FateClaim(s, step, op, h);
      case Cancel(_, _) => FateClaim(s, step, op, h);
      case SetPromise(_) => FateSetPromise(s, k, op, h);
      case Release(_) => FateRelease(s, k, op, h);
      case Finish(_) => FateFinish(s, k, op, h);
    }
  }

  function Later(s: State, schedule: seq<Step>, op: Op, h: History): History
    requires Shaped(s)
  {
    History(h.failed || EverFailsToStart(s, schedule, op), h.late || EverFailsLate(s, schedule, op),
            h.stray || EverStrays(s, schedule, op), h.dropped || EverDrops(s, schedule, op))
  }

  lemma {:induction false} FateRun(s: State, schedule: seq<Step>, op: Op, h: History)
    requires Inv(s) && Fate(s, op, h)
    ensures Fate(Run(s, schedule), op, Later(s, schedule, op, h))
    decreases |schedule|
  {
    if schedule != [] {
      ApplyInv(s, schedule[0]);
      FateApply(s, schedule[0], op, h);
      FateRun(Apply(s, schedule[0]), schedule[1..], op, After(s, schedule[0], op, h));
      assert Later(Apply(s, schedule[0]), schedule[1..], op, After(s, schedule[0], op, h)) == Later(s, schedule, op, h);
    }
  }

  /** A state that some schedule reaches from the beginning. */
  function Reached(slots: nat, threads: nat, schedule: seq<Step>): (r: State)
    ensures Shaped(r)
  {
    Run(Initial(slots, threads), schedule)
  }

  lemma ReachedFate(slots: nat, threads: nat, schedule: seq<Step>, op: Op)
    ensures
      var s := Reached(slots, threads, schedule);
      Inv(s) && Fate(s, op, Later(Initial(slots, threads), schedule, op, CLEAN))
  {
    RunInv(Initial(slots, threads), schedule);
    FateRun(Initial(slots, threads), schedule, op, CLEAN);
  }

  // ---------- set twice ----------

  /** Over all schedules: both sides have set a promise, or are about to, if and only if the operation's command failed
      to go out after a reply or an expiry had claimed its handlers. */
  lemma BothSidesExactly(slots: nat, threads: nat, schedule: seq<Step>, op: Op)
    requires op < |Reached(slots, threads, schedule).ops|
    ensures
      var s := Reached(slots, threads, schedule);
      StarterSide(s, op) && HandlerSide(s, op) <==> EverFailsLate(Initial(slots, threads), schedule, op)
  {
    ReachedFate(slots, threads, schedule, op);
  }

  /** The operation's starter and the claimant of its handlers set what they have yet to set. */
  function Dues(s: State, op: Op): seq<Step>
    requires op < |s.ops|
  {
    [SetPromise(s.ops[op].starter)]
    + if s.ops[op].claims == [] then [] else [SetPromise(s.ops[op].claims[0].thread)]
  }

  lemma PayStarter(s: State, op: Op)
    requires Inv(s) && op < |s.ops|
    ensures
      var v := Apply(s, SetPromise(s.ops[op].starter));
      && Inv(v) && |v.ops| == |s.ops| && v.ops[op].claims == s.ops[op].claims
      && (v.ops[op].ownSets == 1 <==> StarterSide(s, op)) && (StarterSide(v, op) <==> StarterSide(s, op))
      && (HandlerSide(v, op) <==> HandlerSide(s, op))
  {
    ApplyInv(s, SetPromise(s.ops[op].starter));
    if s.ops[op].starter < |s.threads| {
      Facts(s, s.ops[op].starter, op);
    } else {
      assert OpOk(s.ops[op]);
    }
  }

  lemma PayClaimant(s: State, op: Op)
    requires Inv(s) && op < |s.ops| && s.ops[op].claims != []
    ensures
      var v := Apply(s, SetPromise(s.ops[op].claims[0].thread));
      && |v.ops| == |s.ops| && v.ops[op].handlerSets <= 1 && (v.ops[op].handlerSets == 1 <==> HandlerSide(s, op))
      && s.ops[op].ownSets <= v.ops[op].ownSets <= 1 && (v.ops[op].ownSets == 1 ==> StarterSide(s, op))
  {
    ApplyInv(s, SetPromise(s.ops[op].claims[0].thread));
    if s.ops[op].claims[0].thread < |s.threads| {
      Facts(s, s.ops[op].claims[0].thread, op);
    } else {
      assert OpOk(s.ops[op]);
    }
  }

  /** After both have, the promise has been set twice exactly if both had set it or were about to. */
  lemma DuesPaid(s: State, op: Op)
    requires Inv(s) && op < |s.ops|
    ensures
      var r := Run(s, Dues(s, op));
      op < |r.ops| && (Sets(r.ops[op]) == 2 <==> StarterSide(s, op) && HandlerSide(s, op))
  {
    assert OpOk(s.ops[op]);
    PayStarter(s, op);
    var dues := Dues(s, op);
    var v := Apply(s, dues[0]);
    assert OpOk(v.ops[op]);
    if s.ops[op].claims == [] {
      assert dues[1..] == [];
    } else {
      PayClaimant(v, op);
      var last := SetPromise(s.ops[op].claims[0].thread);
      assert dues[1..] == [last] && [last][1..] == [];
      assert Run(v, [last]) == Run(Apply(v, last), []) == Apply(v, last);
    }
  }

  /** Over all schedules, registration and sending being separate steps: a promise is set twice, once everybody has set
      what they owe, if and only if the operation's command failed to go out after a reply or an expiry had claimed its
      handlers. Otherwise it is set at most once. */
  lemma SetTwiceExactly(slots: nat, threads: nat, schedule: seq<Step>, op: Op)
    requires op < |Reached(slots, threads, schedule).ops|
    ensures
      var s := Reached(slots, threads, schedule);
      var r := Run(s, Dues(s, op));
      var late := EverFailsLate(Initial(slots, threads), schedule, op);
      && op < |r.ops| && (Sets(r.ops[op]) == 2 <==> late)
      && Sets(s.ops[op]) <= (if late then 2 else 1)
  {
    BothSidesExactly(slots, threads, schedule, op);
    ReachedFate(slots, threads, schedule, op);
    var s := Reached(slots, threads, schedule);
    assert OpOk(s.ops[op]);
    DuesPaid(s, op);
  }

  /** Registration and sending happen as one step. */
  predicate Coarse(schedule: seq<Step>) {
    forall j :: 0 <= j < |schedule| ==> !schedule[j].Register? && !schedule[j].Sent?
  }

  predicate NobodySends(s: State) {
    forall k :: 0 <= k < |s.threads| ==> !s.threads[k].Sending?
  }

  lemma CoarseStep(s: State, step: Step, op: Op)
    requires Inv(s) && NobodySends(s) && !step.Register? && !step.Sent?
    ensures NobodySends(Apply(s, step)) && !FailsLate(s, step, op)
  {
    var k := step.thread;
    if k < |s.threads| && step.RegisterAndSend? {
      assert ThreadOk(s, k);
      if s.threads[k].Starting? {
        assert OpOk(s.ops[s.threads[k].op]);
      }
    }
  }

  lemma {:induction false} CoarseNeverLate(s: State, schedule: seq<Step>, op: Op)
    requires Inv(s) && NobodySends(s) && Coarse(schedule)
    ensures !EverFailsLate(s, schedule, op)
    decreases |schedule|
  {
    if schedule != [] {
      CoarseStep(s, schedule[0], op);
      ApplyInv(s, schedule[0]);
      CoarseNeverLate(Apply(s, schedule[0]), schedule[1..], op);
    }
  }

  /** In particular no schedule that registers and sends in one step sets a promise twice. */
  lemma SetAtMostOnce(slots: nat, threads: nat, schedule: seq<Step>, op: Op)
    requires Coarse(schedule) && op < |Reached(slots, threads, schedule).ops|
    ensures Sets(Reached(slots, threads, schedule).ops[op]) <= 1
  {
    SetTwiceExactly(slots, threads, schedule, op);
    CoarseNeverLate(Initial(slots, threads), schedule, op);
  }

  function Two(s: State, a: Step, b: Step): (r: State)
    requires Shaped(s)
    ensures Shaped(r)
  {
    Apply(Apply(s, a), b)
  }

  lemma RunPair(s: State, a: Step, b: Step)
    requires Shaped(s)
    ensures Run(s, [a, b]) == Two(s, a, b)
  {
    assert [a, b][1..] == [b] && [b][1..] == [];
    assert Run(s, [a, b]) == Run(Apply(s, a), [b]) == Run(Two(s, a, b), []);
  }

  lemma RunThree(s: State, c1: seq<Step>, c2: seq<Step>, c3: seq<Step>)
    requires Shaped(s)
    ensures Run(s, c1 + c2 + c3) == Run(Run(Run(s, c1), c2), c3)
  {
    RunConcat(s, c1, c2);
    RunConcat(s, c1 + c2, c3);
  }

  lemma RunFive(s: State, c1: seq<Step>, c2: seq<Step>, c3: seq<Step>, c4: seq<Step>, c5: seq<Step>)
    requires Shaped(s)
    ensures Run(s, c1 + c2 + c3 + c4 + c5) == Run(Run(Run(Run(Run(s, c1), c2), c3), c4), c5)
  {
    RunThree(s, c1, c2, c3);
    RunConcat(s, c1 + c2 + c3, c4);
    RunConcat(s, c1 + c2 + c3 + c4, c5);
  }

  lemma ThreePairs<T>(a: T, b: T, c: T, d: T, e: T, f: T)
    ensures [a, b] + [c, d] + [e, f] == [a, b, c, d, e, f]
  {
  }

  lemma FivePairs<T>(a: T, b: T, c: T, d: T, e: T, f: T, g: T, h: T, x: T, y: T)
    ensures [a, b] + [c, d] + [e, f] + [g, h] + [x, y] == [a, b, c, d, e, f, g, h, x, y]
    ensures [a, b] + [c, d] + [e, f] + [g, h] + [x] == [a, b, c, d, e, f, g, h, x]
  {
    ThreePairs(a, b, c, d, e, f);
  }

  /** Slot i is free and unlocked, threads j and k are idle. */
  predicate Ready(s: State, k: nat, j: nat, i: nat) {
    && Shaped(s) && i < |s.reply| && s.available[i] && !s.locked[i]
    && k < |s.threads| && j < |s.threads| && k != j && s.threads[k].Idle? && s.threads[j].Idle?
  }

  /** Thread k holds `op`, thread j is at `t`, slot i is unlocked with the given handlers. */
  predicate Scene(s: State, k: nat, j: nat, i: nat, mine: Thread, other: Thread, reply: Option<Op>, error: Option<Op>) {
    && Shaped(s) && i < |s.reply| && !s.locked[i] && s.reply[i] == reply && s.error[i] == error
    && k < |s.threads| && j < |s.threads| && k != j && s.threads[k] == mine && s.threads[j] == other
  }

  lemma TakeAndRegister(s: State, k: nat, j: nat, i: nat) returns (r: State)
    requires Ready(s, k, j, i)
    ensures r == Run(s, [Take(k, i), Register(k)])
    ensures Scene(r, k, j, i, Sending(|s.ops|, i), Idle, Some(|s.ops|), Some(|s.ops|))
    ensures r.ops == s.ops + [Operation(k, Some(i), [], 0, 0)]
  {
    r := Two(s, Take(k, i), Register(k));
    RunPair(s, Take(k, i), Register(k));
  }

  lemma ExpireWhileSending(s: State, k: nat, j: nat, i: nat, op: Op) returns (r: State)
    requires Scene(s, k, j, i, Sending(op, i), Idle, Some(op), Some(op))
    requires op < |s.ops| && s.ops[op] == Operation(k, Some(i), [], 0, 0)
    ensures r == Run(s, [Expire(j, i), SetPromise(j)])
    ensures Scene(r, k, j, i, Sending(op, i), Releasing(i, Clear), None, None)
    ensures r.ops == s.ops[op := Operation(k, Some(i), [Claim(ByExpiry, j)], 0, 1)]
  {
    assert s.ops[op].claims + [Claim(ByExpiry, j)] == [Claim(ByExpiry, j)];
    r := Two(s, Expire(j, i), SetPromise(j));
    RunPair(s, Expire(j, i), SetPromise(j));
  }

  lemma FailToSend(s: State, k: nat, j: nat, i: nat, op: Op) returns (r: State)
    requires Scene(s, k, j, i, Sending(op, i), Releasing(i, Clear), None, None)
    requires op < |s.ops| && s.ops[op] == Operation(k, Some(i), [Claim(ByExpiry, j)], 0, 1)
    ensures r == Run(s, [Sent(k, false), SetPromise(k)])
    ensures |r.ops| == |s.ops| && Sets(r.ops[op]) == 2
  {
    r := Two(s, Sent(k, false), SetPromise(k));
    RunPair(s, Sent(k, false), SetPromise(k));
  }

  /** A promise can be set twice, from any state with a free slot and two idle threads: the operation expires while its
      command is being sent, and then the command fails to go out. */
  lemma SplitSendSetsTwice(s: State, k: nat, j: nat, i: nat)
    requires Ready(s, k, j, i)
    ensures
      var r := Run(s, [Take(k, i), Register(k), Expire(j, i), SetPromise(j), Sent(k, false), SetPromise(k)]);
      |r.ops| == |s.ops| + 1 && Sets(r.ops[|s.ops|]) == 2
  {
    var s1 := TakeAndRegister(s, k, j, i);
    var s2 := ExpireWhileSending(s1, k, j, i, |s.ops|);
    var s3 := FailToSend(s2, k, j, i, |s.ops|);
    RunThree(s, [Take(k, i), Register(k)], [Expire(j, i), SetPromise(j)], [Sent(k, false), SetPromise(k)]);
    ThreePairs(Take(k, i), Register(k), Expire(j, i), SetPromise(j), Sent(k, false), SetPromise(k));
  }

  lemma SendAndRelease(s: State, k: nat, j: nat, i: nat, op: Op) returns (r: State)
    requires Scene(s, k, j, i, Sending(op, i), Releasing(i, Clear), None, None)
    ensures r == Run(s, [Sent(k, true), Release(j)])
    ensures Scene(r, k, j, i, Idle, Clearing(i, Clear), None, None) && r.available[i] && r.ops == s.ops
  {
    r := Two(s, Sent(k, true), Release(j));
    RunPair(s, Sent(k, true), Release(j));
  }

  lemma StartAgain(s: State, k: nat, j: nat, i: nat) returns (r: State)
    requires Scene(s, k, j, i, Idle, Clearing(i, Clear), None, None) && s.available[i]
    ensures r == Run(s, [Take(k, i), RegisterAndSend(k, true)])
    ensures Scene(r, k, j, i, Idle, Clearing(i, Clear), Some(|s.ops|), Some(|s.ops|))
    ensures r.ops == s.ops + [Operation(k, Some(i), [], 0, 0)]
  {
    r := Two(s, Take(k, i), RegisterAndSend(k, true));
    RunPair(s, Take(k, i), RegisterAndSend(k, true));
  }

  lemma ClearStray(s: State, k: nat, j: nat, i: nat, op: Op) returns (r: State)
    requires Scene(s, k, j, i, Idle, Clearing(i, Clear), Some(op), Some(op))
    requires op < |s.ops| && s.ops[op] == Operation(k, Some(i), [], 0, 0)
    ensures r == Run(s, [Finish(j), Expire(j, i)])
    ensures Scene(r, k, j, i, Idle, Releasing(i, Nothing), None, None) && |r.ops| == |s.ops|
    ensures r.ops[op].claims == [Claim(ByExpiry, j)] && !Accounted(r, op)
  {
    assert s.ops[op].claims + [Claim(ByExpiry, j)] == [Claim(ByExpiry, j)];
    r := Two(s, Finish(j), Expire(j, i));
    RunPair(s, Finish(j), Expire(j, i));
  }

  // ---------- what an expiry finds ----------

  /** Over all schedules: an expiry settles the operation it finds in a slot if and only if no tail of an earlier
      delivery or expiry cleared that slot while the operation was registered there. */
  lemma ExpirySettlesExactly(slots: nat, threads: nat, schedule: seq<Step>, k: nat, i: nat, op: Op)
    requires
      var s := Reached(slots, threads, schedule);
      && k < |s.threads| && s.threads[k].Idle? && i < |s.reply| && !s.locked[i] && s.reply[i] == Some(op)
    ensures
      var s := Reached(slots, threads, schedule);
      Apply(s, Expire(k, i)).threads[k] == Settling(op, i, ByExpiry)
      <==> !EverStrays(Initial(slots, threads), schedule, op)
  {
    ReachedFate(slots, threads, schedule, op);
    InSlot(Reached(slots, threads, schedule), i);
  }

  /** The expiry tail clears the slot's error handler after giving the ID back, without the lock. A newer operation may
      by then have registered there; when that one expires in turn it is claimed but never settled, and no thread is
      left that could settle it. */
  lemma StrayClearLosesOperation(s: State, k: nat, j: nat, i: nat)
    requires Ready(s, k, j, i)
    ensures
      var r := Run(s, [Take(k, i), Register(k), Expire(j, i), SetPromise(j), Sent(k, true), Release(j),
                       Take(k, i), RegisterAndSend(k, true), Finish(j), Expire(j, i)]);
      && |r.ops| == |s.ops| + 2
      && r.ops[|s.ops| + 1].claims == [Claim(ByExpiry, j)] && !Accounted(r, |s.ops| + 1)
      && Scene(r, k, j, i, Idle, Releasing(i, Nothing), None, None)
  {
    var op := |s.ops|;
    var s1 := TakeAndRegister(s, k, j, i);
    var s2 := ExpireWhileSending(s1, k, j, i, op);
    var s3 := SendAndRelease(s2, k, j, i, op);
    var s4 := StartAgain(s3, k, j, i);
    var s5 := ClearStray(s4, k, j, i, op + 1);
    var c1, c2, c3 := [Take(k, i), Register(k)], [Expire(j, i), SetPromise(j)], [Sent(k, true), Release(j)];
    var c4, c5 := [Take(k, i), RegisterAndSend(k, true)], [Finish(j), Expire(j, i)];
    RunFive(s, c1, c2, c3, c4, c5);
    FivePairs(Take(k, i), Register(k), Expire(j, i), SetPromise(j), Sent(k, true), Release(j),
              Take(k, i), RegisterAndSend(k, true), Finish(j), Expire(j, i));
  }

  /** The thread has yet to clear the error handler of slot i, holding the slot's lock or not. */
  predicate ClearsLocked(t: Thread, i: nat) {
    (t.Settling? && t.slot == i && t.who.ByReply?)
    || ((t.Releasing? || t.Clearing?) && t.slot == i && t.after.ClearAndUnlock?)
  }

  predicate ClearsUnlocked(t: Thread, i: nat) {
    (t.Settling? && t.slot == i && !t.who.ByReply?)
    || ((t.Releasing? || t.Clearing?) && t.slot == i && t.after.Clear?)
  }

  /** A registration lands in a slot that an expiry has yet to finish with. */
  predicate Overtakes(s: State, step: Step) {
    && (step.Register? || step.RegisterAndSend?)
    && step.thread < |s.threads| && s.threads[step.thread].Starting?
    && exists j :: 0 <= j < |s.threads| && ClearsUnlocked(s.threads[j], s.threads[step.thread].slot)
  }

  /** No registration overtakes an expiry. */
  predicate Quiet(s: State, schedule: seq<Step>)
    requires Shaped(s)
    decreases |schedule|
  {
    schedule == [] || (!Overtakes(s, schedule[0]) && Quiet(Apply(s, schedule[0]), schedule[1..]))
  }

  /** A slot that is about to be cleared is empty; at most one thread holds a slot's lock. */
  ghost predicate Paired(s: State) {
    && Shaped(s)
    && (forall k, i :: 0 <= k < |s.threads| && 0 <= i < |s.reply| && ClearsUnlocked(s.threads[k], i) ==>
         s.reply[i].None?)
    && (forall k, i :: 0 <= k < |s.threads| && 0 <= i < |s.reply| && ClearsLocked(s.threads[k], i) ==>
         s.reply[i].None? && s.locked[i])
    && (forall k :: 0 <= k < |s.threads| && s.threads[k].Clearing? ==> !s.threads[k].after.Nothing?)
    && (forall j, k, i :: 0 <= j < |s.threads| && 0 <= k < |s.threads| && 0 <= i < |s.reply| && j != k ==>
         !(ClearsLocked(s.threads[j], i) && ClearsLocked(s.threads[k], i)))
  }

  lemma PairedRegister(s: State, k: nat)
    requires Paired(s) && k < |s.threads| && !Overtakes(s, Register(k))
    ensures Paired(DoRegister(s, k))
  {
  }

  lemma PairedSeize(s: State, k: nat, i: nat, who: Claimant)
    requires Paired(s) && i < |s.reply|
    ensures Paired(Seize(s, k, i, who))
  {
  }

  /** A thread with nothing to clear is no concern of any slot. */
  lemma PairedMove(s: State, k: nat, t: Thread)
    requires Paired(s) && k < |s.threads|
    requires t.Idle? || t.Starting? || t.Failing? || (t.Releasing? && t.after.Nothing?)
    ensures Paired(Move(s, k, t))
  {
  }

  lemma PairedSent(s: State, k: nat, ok: bool)
    requires Paired(s) && k < |s.threads|
    ensures Paired(DoSent(s, k, ok))
  {
    match s.threads[k]
    case Sending(op, i) =>
      PairedMove(s, k, Idle);
      if i < |s.reply| {
        PairedSeize(s, k, i, ByWithdrawal);
        PairedMove(Seize(s, k, i, ByWithdrawal), k, Failing(op, i));
      }
    case _ =>
  }

  /** A thread goes on with the same slot to clear, under the same lock. */
  lemma PairedSwap(s: State, r: State, k: nat)
    requires Paired(s) && Shaped(r) && r.reply == s.reply && r.error == s.error && r.locked == s.locked
    requires |r.threads| == |s.threads| && k < |s.threads|
    requires forall j :: 0 <= j < |s.threads| && j != k ==> r.threads[j] == s.threads[j]
    requires forall i: nat :: ClearsLocked(r.threads[k], i) == ClearsLocked(s.threads[k], i)
    requires forall i: nat :: ClearsUnlocked(r.threads[k], i) == ClearsUnlocked(s.threads[k], i)
    requires r.threads[k].Clearing? ==> !r.threads[k].after.Nothing?
    ensures Paired(r)
  {
  }

  lemma PairedSetPromise(s: State, k: nat)
    requires Paired(s) && k < |s.threads|
    ensures Paired(DoSetPromise(s, k))
  {
    PairedSwap(s, DoSetPromise(s, k), k);
  }

  lemma PairedRelease(s: State, k: nat)
    requires Paired(s) && k < |s.threads|
    ensures Paired(DoRelease(s, k))
  {
    PairedSwap(s, DoRelease(s, k), k);
  }

  lemma PairedFinish(s: State, k: nat)
    requires Paired(s) && k < |s.threads|
    ensures Paired(DoFinish(s, k))
  {
    if s.threads[k].Clearing? && s.threads[k].slot < |s.error| {
      assert ClearsLocked(s.threads[k], s.threads[k].slot) || ClearsUnlocked(s.threads[k], s.threads[k].slot);
    }
  }

  lemma PairedDeliver(s: State, k: nat, i: nat)
    requires Paired(s) && k < |s.threads| && i < |s.reply| && !s.locked[i]
    ensures Paired(DoDeliver(s, k, i))
  {
    PairedSeize(s, k, i, ByReply);
    if s.reply[i].Some? {
      PairedLock(Seize(s, k, i, ByReply), k, i, s.reply[i].value);
    }
  }

  /** Whoever finds a slot unlocked may lock it. */
  lemma PairedLock(s: State, k: nat, i: nat, op: Op)
    requires Paired(s) && k < |s.threads| && i < |s.reply| && !s.locked[i] && s.reply[i].None?
    ensures Paired(Move(s.(locked := s.locked[i := true]), k, Settling(op, i, ByReply)))
  {
    assert forall j :: 0 <= j < |s.threads| ==> !ClearsLocked(s.threads[j], i);
  }

  lemma PairedExpire(s: State, k: nat, i: nat)
    requires Paired(s) && k < |s.threads| && i < |s.reply|
    ensures Paired(DoExpire(s, k, i))
  {
    PairedSeize(s, k, i, ByExpiry);
    var v := Seize(s, k, i, ByExpiry);
    if s.error[i].Some? {
      PairedUnlocked(v, k, Settling(s.error[i].value, i, ByExpiry), i);
    } else {
      PairedMove(v, k, Releasing(i, Nothing));
    }
  }

  /** A thread may be about to clear an empty slot. */
  lemma PairedUnlocked(s: State, k: nat, t: Thread, i: nat)
    requires Paired(s) && k < |s.threads| && i < |s.reply| && s.reply[i].None? && ClearsUnlocked(t, i)
    ensures Paired(Move(s, k, t))
  {
  }

  lemma PairedTake(s: State, k: nat, i: nat)
    requires Paired(s)
    ensures Paired(Apply(s, Take(k, i)))
  {
  }

  lemma PairedCancel(s: State, k: nat, i: nat)
    requires Paired(s)
    ensures Paired(Apply(s, Cancel(k, i)))
  {
    if k < |s.threads| && i < |s.reply| {
      PairedSeize(s, k, i, ByCancel);
      PairedMove(Seize(s, k, i, ByCancel), k, Releasing(i, Nothing));
    }
  }

  lemma PairedApply(s: State, step: Step)
    requires Paired(s) && !Overtakes(s, step)
    ensures Paired(Apply(s, step))
  {
    var k := step.thread;
    if k < |s.threads| {
      match step
      case Register(_) => PairedRegister(s, k);
      case Sent(_, ok) => PairedSent(s, k, ok);
      case RegisterAndSend(_, ok) =>
        assert Overtakes(s, Register(k)) ==> Overtakes(s, step);
        PairedRegister(s, k);
        PairedSent(DoRegister(s, k), k, ok);
      case Deliver(_, i) => if i < |s.reply| && !s.locked[i] { PairedDeliver(s, k, i); }
      case Expire(_, i) => if i < |s.reply| { PairedExpire(s, k, i); }
      case SetPromise(_) => PairedSetPromise(s, k);
      case Release(_) => PairedRelease(s, k);
      case Finish(_) => PairedFinish(s, k);
      case Refuse(_) =>
      case Take(_, i) => PairedTake(s, k, i);
      case Cancel(_, i) => PairedCancel(s, k, i);
    }
  }

  /** Without overtaking no tail clears the slot of a newer operation. */
  lemma {:induction false} QuietNeverStrays(s: State, schedule: seq<Step>, op: Op)
    requires Paired(s) && Quiet(s, schedule)
    ensures !EverStrays(s, schedule, op)
    decreases |schedule|
  {
    if schedule != [] {
      var k := schedule[0].thread;
      if schedule[0].Finish? && k < |s.threads| && s.threads[k].Clearing? {
        assert ClearsLocked(s.threads[k], s.threads[k].slot) || ClearsUnlocked(s.threads[k], s.threads[k].slot);
      }
      PairedApply(s, schedule[0]);
      QuietNeverStrays(Apply(s, schedule[0]), schedule[1..], op);
    }
  }

  /** In particular, as long as no registration overtakes an expiry, whatever operation an expiry finds in a slot is
      taken to be settled. */
  lemma QuietExpirySettles(slots: nat, threads: nat, schedule: seq<Step>, k: nat, i: nat)
    requires Quiet(Initial(slots, threads), schedule)
    requires
      var s := Reached(slots, threads, schedule);
      k < |s.threads| && s.threads[k].Idle? && i < |s.reply| && !s.locked[i] && s.reply[i].Some?
    ensures
      var s := Reached(slots, threads, schedule);
      Apply(s, Expire(k, i)).threads[k] == Settling(s.reply[i].value, i, ByExpiry)
  {
    var op := Reached(slots, threads, schedule).reply[i].value;
    QuietNeverStrays(Initial(slots, threads), schedule, op);
    ExpirySettlesExactly(slots, threads, schedule, k, i, op);
  }

  // ---------- lost operations ----------

  /** Over all schedules, every operation in every state reached: it is settled, about to be settled, still able to be
      settled, or given up by its own caller, if and only if it failed to start or was never dropped: never expired
      without its error handler, overwritten in its slot, evicted by another operation's failed send, or cancelled by
      another operation's caller. */
  lemma LostExactly(slots: nat, threads: nat, schedule: seq<Step>, op: Op)
    requires op < |Reached(slots, threads, schedule).ops|
    ensures
      var s := Reached(slots, threads, schedule);
      Accounted(s, op)
      <==> EverFailsToStart(Initial(slots, threads), schedule, op) || !EverDrops(Initial(slots, threads), schedule, op)
  {
    ReachedFate(slots, threads, schedule, op);
  }

  /** Threads k, j and m are at the given points, slot i is unlocked with the given handlers in it. */
  predicate Trio(s: State, k: nat, j: nat, m: nat, i: nat, atK: Thread, atJ: Thread, atM: Thread, handler: Option<Op>) {
    && Scene(s, k, j, i, atK, atJ, handler, handler) && Scene(s, k, m, i, atK, atM, handler, handler) && j != m
  }

  /** Slot i is free, unlocked and empty, threads k, j and m are idle. */
  predicate FreeTrio(s: State, k: nat, j: nat, m: nat, i: nat) {
    Trio(s, k, j, m, i, Idle, Idle, Idle, None) && s.available[i]
  }

  /** The state has one more operation than s, the last one, which is as given and lost. */
  predicate LosesNext(s: State, r: State, more: nat, o: Operation) {
    Shaped(r) && more > 0 && |r.ops| == |s.ops| + more && r.ops[|r.ops| - 1] == o && !Accounted(r, |r.ops| - 1)
  }

  // Each of the following lemmas takes the threads from one scene to the next.

  lemma StallAndExpire(s: State, k: nat, j: nat, m: nat, i: nat) returns (r: State)
    requires FreeTrio(s, k, j, m, i)
    ensures r == Run(s, [Take(k, i), Expire(j, i)])
    ensures Trio(r, k, j, m, i, Starting(|s.ops|, i), Releasing(i, Nothing), Idle, None)
    ensures r.ops == s.ops + [Operation(k, None, [], 0, 0)]
  {
    r := Two(s, Take(k, i), Expire(j, i));
    RunPair(s, Take(k, i), Expire(j, i));
  }

  lemma ReuseStalled(s: State, k: nat, j: nat, m: nat, i: nat, op: Op) returns (r: State)
    requires Trio(s, k, j, m, i, Starting(op, i), Releasing(i, Nothing), Idle, None)
    ensures r == Run(s, [Release(j), Take(m, i)])
    ensures Trio(r, k, j, m, i, Starting(op, i), Idle, Starting(|s.ops|, i), None)
    ensures r.ops == s.ops + [Operation(m, None, [], 0, 0)]
  {
    r := Two(s, Release(j), Take(m, i));
    RunPair(s, Release(j), Take(m, i));
  }

  lemma Overwrite(s: State, k: nat, j: nat, m: nat, i: nat, op: Op, newer: Op) returns (r: State)
    requires Trio(s, k, j, m, i, Starting(op, i), Idle, Starting(newer, i), None)
    requires op < |s.ops| && newer < |s.ops| && newer != op && s.ops[newer] == Operation(m, None, [], 0, 0)
    ensures r == Run(s, [RegisterAndSend(m, true), RegisterAndSend(k, true)])
    ensures Trio(r, k, j, m, i, Idle, Idle, Idle, Some(op)) && |r.ops| == |s.ops|
    ensures r.ops[newer] == Operation(m, Some(i), [], 0, 0) && !Accounted(r, newer)
  {
    r := Two(s, RegisterAndSend(m, true), RegisterAndSend(k, true));
    RunPair(s, RegisterAndSend(m, true), RegisterAndSend(k, true));
  }

  lemma RegisterOnly(s: State, k: nat, j: nat, m: nat, i: nat) returns (r: State)
    requires FreeTrio(s, k, j, m, i)
    ensures r == Run(s, [Take(k, i), Register(k)])
    ensures Trio(r, k, j, m, i, Sending(|s.ops|, i), Idle, Idle, Some(|s.ops|))
    ensures r.ops == s.ops + [Operation(k, Some(i), [], 0, 0)]
  {
    r := Two(s, Take(k, i), Register(k));
    RunPair(s, Take(k, i), Register(k));
  }

  lemma ExpireInSending(s: State, k: nat, j: nat, m: nat, i: nat, op: Op) returns (r: State)
    requires Trio(s, k, j, m, i, Sending(op, i), Idle, Idle, Some(op)) && op < |s.ops|
    ensures r == Run(s, [Expire(j, i), SetPromise(j)])
    ensures Trio(r, k, j, m, i, Sending(op, i), Releasing(i, Clear), Idle, None) && |r.ops| == |s.ops|
  {
    r := Two(s, Expire(j, i), SetPromise(j));
    RunPair(s, Expire(j, i), SetPromise(j));
  }

  lemma FinishExpiry(s: State, k: nat, j: nat, m: nat, i: nat, op: Op) returns (r: State)
    requires Trio(s, k, j, m, i, Sending(op, i), Releasing(i, Clear), Idle, None)
    ensures r == Run(s, [Release(j), Finish(j)])
    ensures Trio(r, k, j, m, i, Sending(op, i), Idle, Idle, None) && r.available[i] && r.ops == s.ops
  {
    r := Two(s, Release(j), Finish(j));
    RunPair(s, Release(j), Finish(j));
  }

  lemma Reuse(s: State, k: nat, j: nat, m: nat, i: nat, atK: Thread) returns (r: State)
    requires Trio(s, k, j, m, i, atK, Idle, Idle, None) && s.available[i]
    ensures r == Run(s, [Take(m, i), RegisterAndSend(m, true)])
    ensures Trio(r, k, j, m, i, atK, Idle, Idle, Some(|s.ops|))
    ensures r.ops == s.ops + [Operation(m, Some(i), [], 0, 0)]
  {
    r := Two(s, Take(m, i), RegisterAndSend(m, true));
    RunPair(s, Take(m, i), RegisterAndSend(m, true));
  }

  lemma Evict(s: State, k: nat, j: nat, m: nat, i: nat, op: Op, newer: Op) returns (r: State)
    requires Trio(s, k, j, m, i, Sending(op, i), Idle, Idle, Some(newer)) && newer != op
    requires op < |s.ops| && newer < |s.ops| && s.ops[newer] == Operation(m, Some(i), [], 0, 0)
    ensures r == Run(s, [Sent(k, false)]) && Shaped(r) && |r.ops| == |s.ops|
    ensures r.ops[newer] == Operation(m, Some(i), [Claim(ByWithdrawal, k)], 0, 0) && !Accounted(r, newer)
  {
    assert s.ops[newer].claims + [Claim(ByWithdrawal, k)] == [Claim(ByWithdrawal, k)];
    r := Apply(s, Sent(k, false));
    assert [Sent(k, false)][1..] == [];
  }

  lemma DeliverInTime(s: State, k: nat, j: nat, m: nat, i: nat, op: Op) returns (r: State)
    requires Trio(s, k, j, m, i, Idle, Idle, Idle, Some(op)) && op < |s.ops|
    ensures r == Run(s, [Deliver(j, i), SetPromise(j)])
    ensures Delivering(r, k, j, m, i) && |r.ops| == |s.ops|
  {
    r := Two(s, Deliver(j, i), SetPromise(j));
    RunPair(s, Deliver(j, i), SetPromise(j));
  }

  /** Thread j has settled the operation of slot i and still holds its lock. */
  predicate Delivering(s: State, k: nat, j: nat, m: nat, i: nat) {
    && Shaped(s) && i < |s.reply| && s.reply[i].None? && s.error[i].None?
    && k < |s.threads| && j < |s.threads| && m < |s.threads| && k != j && k != m && j != m
    && s.threads[k].Idle? && s.threads[m].Idle? && s.threads[j] == Releasing(i, ClearAndUnlock)
  }

  lemma FinishDelivery(s: State, k: nat, j: nat, m: nat, i: nat) returns (r: State)
    requires Delivering(s, k, j, m, i)
    ensures r == Run(s, [Release(j), Finish(j)])
    ensures FreeTrio(r, k, j, m, i) && r.ops == s.ops
  {
    r := Two(s, Release(j), Finish(j));
    RunPair(s, Release(j), Finish(j));
  }

  lemma CancelForeign(s: State, k: nat, j: nat, m: nat, i: nat, newer: Op) returns (r: State)
    requires Trio(s, k, j, m, i, Idle, Idle, Idle, Some(newer))
    requires newer < |s.ops| && s.ops[newer] == Operation(m, Some(i), [], 0, 0)
    ensures r == Run(s, [Cancel(k, i), Release(k)])
    ensures Trio(r, k, j, m, i, Idle, Idle, Idle, None) && |r.ops| == |s.ops|
    ensures r.ops[newer] == Operation(m, Some(i), [Claim(ByCancel, k)], 0, 0) && !Accounted(r, newer)
  {
    assert s.ops[newer].claims + [Claim(ByCancel, k)] == [Claim(ByCancel, k)];
    r := Two(s, Cancel(k, i), Release(k));
    RunPair(s, Cancel(k, i), Release(k));
  }

  /** Lost by overwriting, from any state with a free slot and three idle threads: a starter stalls between taking its
      ID and registering, the ID expires and is given to a newer operation, and the starter then registers over the
      newer one. The newer one's command has gone out; it sits in no slot and nobody will settle it. */
  lemma OverwritingLosesOperation(s: State, k: nat, j: nat, m: nat, i: nat)
    requires FreeTrio(s, k, j, m, i)
    ensures
      var r := Run(s, [Take(k, i), Expire(j, i), Release(j), Take(m, i),
                       RegisterAndSend(m, true), RegisterAndSend(k, true)]);
      && Trio(r, k, j, m, i, Idle, Idle, Idle, Some(|s.ops|))
      && LosesNext(s, r, 2, Operation(m, Some(i), [], 0, 0))
  {
    var op := |s.ops|;
    var s1 := StallAndExpire(s, k, j, m, i);
    var s2 := ReuseStalled(s1, k, j, m, i, op);
    var s3 := Overwrite(s2, k, j, m, i, op, op + 1);
    var c1, c2 := [Take(k, i), Expire(j, i)], [Release(j), Take(m, i)];
    var c3 := [RegisterAndSend(m, true), RegisterAndSend(k, true)];
    RunThree(s, c1, c2, c3);
    ThreePairs(Take(k, i), Expire(j, i), Release(j), Take(m, i), RegisterAndSend(m, true), RegisterAndSend(k, true));
  }

  /** Lost by eviction, from any state with a free slot and three idle threads: an operation expires while its command
      is being sent, its ID is given to a newer operation, the send fails, and its starter takes the newer one's
      handlers out of the slot. */
  lemma EvictionLosesOperation(s: State, k: nat, j: nat, m: nat, i: nat)
    requires FreeTrio(s, k, j, m, i)
    ensures
      var r := Run(s, [Take(k, i), Register(k), Expire(j, i), SetPromise(j), Release(j), Finish(j),
                       Take(m, i), RegisterAndSend(m, true), Sent(k, false)]);
      LosesNext(s, r, 2, Operation(m, Some(i), [Claim(ByWithdrawal, k)], 0, 0))
  {
    var op := |s.ops|;
    var s1 := RegisterOnly(s, k, j, m, i);
    var s2 := ExpireInSending(s1, k, j, m, i, op);
    var s3 := FinishExpiry(s2, k, j, m, i, op);
    var s4 := Reuse(s3, k, j, m, i, Sending(op, i));
    var s5 := Evict(s4, k, j, m, i, op, op + 1);
    var c1, c2, c3 := [Take(k, i), Register(k)], [Expire(j, i), SetPromise(j)], [Release(j), Finish(j)];
    var c4, c5 := [Take(m, i), RegisterAndSend(m, true)], [Sent(k, false)];
    RunFive(s, c1, c2, c3, c4, c5);
    FivePairs(Take(k, i), Register(k), Expire(j, i), SetPromise(j), Release(j), Finish(j),
              Take(m, i), RegisterAndSend(m, true), Sent(k, false), Sent(k, false));
  }

  /** A whole operation, from its start to the end of its delivery. */
  lemma CompleteOne(s: State, k: nat, j: nat, m: nat, i: nat) returns (r: State)
    requires FreeTrio(s, k, j, m, i)
    ensures r == Run(Run(Run(s, [Take(k, i), RegisterAndSend(k, true)]), [Deliver(j, i), SetPromise(j)]),
                     [Release(j), Finish(j)])
    ensures FreeTrio(r, k, j, m, i) && |r.ops| == |s.ops| + 1
  {
    var s1 := Reuse(s, m, j, k, i, Idle);
    var s2 := DeliverInTime(s1, k, j, m, i, |s.ops|);
    r := FinishDelivery(s2, k, j, m, i);
  }

  /** Lost by another caller's cancellation, from any state with a free slot and three idle threads: a caller stops
      waiting, its operation is then completed after all, the ID is given to a newer operation, and the caller cancels
      it. In the end every thread is idle, and nobody will settle the newer one. */
  lemma ForeignCancelLosesOperation(s: State, k: nat, j: nat, m: nat, i: nat)
    requires FreeTrio(s, k, j, m, i)
    ensures
      var r := Run(s, [Take(k, i), RegisterAndSend(k, true), Deliver(j, i), SetPromise(j), Release(j), Finish(j),
                       Take(m, i), RegisterAndSend(m, true), Cancel(k, i), Release(k)]);
      && Trio(r, k, j, m, i, Idle, Idle, Idle, None)
      && LosesNext(s, r, 2, Operation(m, Some(i), [Claim(ByCancel, k)], 0, 0))
  {
    var s3 := CompleteOne(s, k, j, m, i);
    var s4 := Reuse(s3, k, j, m, i, Idle);
    var s5 := CancelForeign(s4, k, j, m, i, |s.ops| + 1);
    var c1, c2, c3 := [Take(k, i), RegisterAndSend(k, true)], [Deliver(j, i), SetPromise(j)], [Release(j), Finish(j)];
    var c4, c5 := [Take(m, i), RegisterAndSend(m, true)], [Cancel(k, i), Release(k)];
    RunFive(s, c1, c2, c3, c4, c5);
    FivePairs(Take(k, i), RegisterAndSend(k, true), Deliver(j, i), SetPromise(j), Release(j), Finish(j),
              Take(m, i), RegisterAndSend(m, true), Cancel(k, i), Release(k));
  }
}
