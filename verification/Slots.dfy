/** Transaction IDs under every schedule of lock-held sections: a busy ID has a handler by which a reply can free it,
    or a thread that is on its way to free it; a locked slot has a thread that will unlock it. So no schedule leaks an
    ID and none blocks: when sends go through and replies come in, everything returns to its initial state. */
module Slots {
  import opened Bytes
  import opened Settlement

  // ---------- who is responsible for a slot ----------

  /** The thread will register handlers in the slot or give its ID back. */
  predicate Holds(t: Thread, i: nat) {
    (t.Starting? || t.Failing? || t.Settling? || t.Releasing?) && t.slot == i
  }

  /** The thread runs the tail of a delivery, which ends by unlocking the slot. */
  predicate Locks(t: Thread, i: nat) {
    && ((t.Settling? && t.who.ByReply?) || ((t.Releasing? || t.Clearing?) && t.after.ClearAndUnlock?))
    && t.slot == i
  }

  ghost predicate BusyOk(s: State, i: nat)
    requires Shaped(s) && i < |s.reply|
  {
    s.available[i] || s.reply[i].Some? || exists k :: 0 <= k < |s.threads| && Holds(s.threads[k], i)
  }

  ghost predicate LockOk(s: State, i: nat)
    requires Shaped(s) && i < |s.reply|
  {
    s.locked[i] ==> exists k :: 0 <= k < |s.threads| && Locks(s.threads[k], i)
  }

  predicate Within(t: Thread, slots: nat) {
    t.Idle? || t.slot < slots
  }

  ghost predicate Kept(s: State) {
    && Shaped(s)
    && (forall i :: 0 <= i < |s.reply| ==> BusyOk(s, i))
    && (forall i :: 0 <= i < |s.reply| ==> LockOk(s, i))
    && (forall k :: 0 <= k < |s.threads| ==> Within(s.threads[k], |s.reply|))
  }

  // ---------- every step keeps it ----------

  /** Between s and r only thread k has moved on, and it lets go of no slot that still needs it. */
  predicate Passes(s: State, r: State, k: nat, i: nat)
    requires Shaped(s) && Shaped(r) && |r.reply| == |s.reply| && i < |s.reply|
    requires k < |s.threads| && |r.threads| == |s.threads|
  {
    && (r.available[i] || r.reply[i].Some? || Holds(r.threads[k], i)
        || (!s.available[i] && s.reply[i].None? && !Holds(s.threads[k], i)))
    && (r.locked[i] ==> Locks(r.threads[k], i) || (s.locked[i] && !Locks(s.threads[k], i)))
  }

  lemma PassedOn(s: State, r: State, k: nat)
    requires Kept(s) && Shaped(r) && |r.reply| == |s.reply| && k < |s.threads| && |r.threads| == |s.threads|
    requires r.threads == s.threads[k := r.threads[k]] && Within(r.threads[k], |r.reply|)
    requires forall i :: 0 <= i < |s.reply| ==> Passes(s, r, k, i)
    ensures Kept(r)
  {
    forall i | 0 <= i < |r.reply|
      ensures BusyOk(r, i) && LockOk(r, i)
    {
      assert Passes(s, r, k, i) && BusyOk(s, i) && LockOk(s, i);
      assert forall j :: 0 <= j < |s.threads| && j != k ==> r.threads[j] == s.threads[j];
    }
  }

  lemma RegisterKept(s: State, k: nat)
    requires Kept(s) && k < |s.threads|
    ensures Kept(DoRegister(s, k))
  {
    if DoRegister(s, k) != s {
      PassedOn(s, DoRegister(s, k), k);
    }
  }

  lemma SentKept(s: State, k: nat, ok: bool)
    requires Kept(s) && k < |s.threads|
    ensures Kept(DoSent(s, k, ok))
  {
    if DoSent(s, k, ok) != s {
      PassedOn(s, DoSent(s, k, ok), k);
    }
  }

  /** The steps that claim the handlers of a slot. */
  lemma ClaimKept(s: State, step: Step)
    requires Kept(s) && (step.Deliver? || step.Expire? || step.Cancel?)
    ensures Kept(Apply(s, step))
  {
    if Apply(s, step) != s {
      PassedOn(s, Apply(s, step), step.thread);
    }
  }

  /** The steps of a tail. */
  lemma TailKept(s: State, step: Step)
    requires Kept(s) && (step.SetPromise? || step.Release? || step.Finish?)
    ensures Kept(Apply(s, step))
  {
    if Apply(s, step) != s {
      PassedOn(s, Apply(s, step), step.thread);
    }
  }

  lemma TakeKept(s: State, k: nat, i: nat)
    requires Kept(s)
    ensures Kept(Apply(s, Take(k, i)))
  {
    if Apply(s, Take(k, i)) != s {
      PassedOn(s, Apply(s, Take(k, i)), k);
    }
  }

  lemma ApplyKept(s: State, step: Step)
    requires Kept(s)
    ensures Kept(Apply(s, step))
  {
    var k := step.thread;
    if k < |s.threads| {
      match step
      case Refuse(_) =>
        var r := Apply(s, step);
        assert forall i :: 0 <= i < |s.reply| && BusyOk(s, i) ==> BusyOk(r, i);
        assert forall i :: 0 <= i < |s.reply| && LockOk(s, i) ==> LockOk(r, i);
      case Take(_, i) => TakeKept(s, k, i);
      case Register(_) => RegisterKept(s, k);
      case Sent(_, ok) => SentKept(s, k, ok);
      case RegisterAndSend(_, ok) =>
        RegisterKept(s, k);
        SentKept(DoRegister(s, k), k, ok);
      case Deliver(_, _) => ClaimKept(s, step);
      case Expire(_, _) => ClaimKept(s, step);
      case Cancel(_, _) => ClaimKept(s, step);
      case SetPromise(_) => TailKept(s, step);
      case Release(_) => TailKept(s, step);
      case Finish(_) => TailKept(s, step);
    }
  }

  lemma {:induction false} RunKept(s: State, schedule: seq<Step>)
    requires Inv(s) && Kept(s)
    ensures Inv(Run(s, schedule)) && Kept(Run(s, schedule))
    decreases |schedule|
  {
    if schedule != [] {
      ApplyInv(s, schedule[0]);
      ApplyKept(s, schedule[0]);
      RunKept(Apply(s, schedule[0]), schedule[1..]);
    }
  }

  lemma InitialKept(slots: nat, threads: nat)
    ensures Inv(Initial(slots, threads)) && Kept(Initial(slots, threads))
  {
  }

  /** Under every schedule a busy ID without a reply handler has a thread on its way to register one or to give it
      back. */
  lemma BusyIsHeld(slots: nat, threads: nat, schedule: seq<Step>, i: nat)
    requires
      var s := Run(Initial(slots, threads), schedule);
      i < |s.reply| && !s.available[i] && s.reply[i].None?
    ensures
      var s := Run(Initial(slots, threads), schedule);
      exists k :: 0 <= k < |s.threads| && Holds(s.threads[k], i)
  {
    InitialKept(slots, threads);
    RunKept(Initial(slots, threads), schedule);
    assert BusyOk(Run(Initial(slots, threads), schedule), i);
  }

  /** Such a thread stays responsible for the slot until the ID is free or handlers are registered. */
  lemma HolderStays(s: State, step: Step, k: nat, i: nat)
    requires Shaped(s) && k < |s.threads| && i < |s.reply| && Holds(s.threads[k], i)
    ensures
      var r := Apply(s, step);
      |r.threads| == |s.threads| && |r.reply| == |s.reply|
      && (Holds(r.threads[k], i) || r.available[i] || r.reply[i].Some?)
  {
    if step.thread == k {
      HolderSteps(s, step, i);
    } else {
      OtherSteps(s, step, k);
    }
  }

  lemma HolderSteps(s: State, step: Step, i: nat)
    requires Shaped(s) && step.thread < |s.threads| && i < |s.reply| && Holds(s.threads[step.thread], i)
    ensures
      var r, k := Apply(s, step), step.thread;
      |r.threads| == |s.threads| && |r.reply| == |s.reply|
      && (Holds(r.threads[k], i) || r.available[i] || r.reply[i].Some?)
  {
  }

  lemma OtherSteps(s: State, step: Step, k: nat)
    requires Shaped(s) && k < |s.threads| && step.thread != k
    ensures
      var r := Apply(s, step);
      |r.threads| == |s.threads| && |r.reply| == |s.reply| && r.threads[k] == s.threads[k]
  {
  }

  // ---------- everything can come to its end ----------

  /** A send that goes through, a reply that comes in, and the rest of a tail. */
  predicate Completing(step: Step) {
    match step
    case RegisterAndSend(_, ok) => ok
    case Sent(_, ok) => ok
    case Deliver(_, _) => true
    case SetPromise(_) => true
    case Release(_) => true
    case Finish(_) => true
    case _ => false
  }

  predicate AllCompleting(schedule: seq<Step>) {
    forall j :: 0 <= j < |schedule| ==> Completing(schedule[j])
  }

  lemma CompletingConcat(a: seq<Step>, b: seq<Step>)
    requires AllCompleting(a) && AllCompleting(b)
    ensures AllCompleting(a + b)
  {
  }

  predicate AllIdle(s: State) {
    forall j :: 0 <= j < |s.threads| ==> s.threads[j].Idle?
  }

  predicate NoTails(s: State) {
    forall j :: 0 <= j < |s.threads| ==> s.threads[j].Idle? || s.threads[j].Starting? || s.threads[j].Sending?
  }

  function Tail(k: nat): seq<Step> {
    [SetPromise(k), Release(k), Finish(k)]
  }

  lemma RunTail(s: State, k: nat)
    requires Shaped(s)
    ensures Run(s, Tail(k)) == Apply(Apply(Apply(s, SetPromise(k)), Release(k)), Finish(k))
  {
    var a, b, c := SetPromise(k), Release(k), Finish(k);
    assert Tail(k)[1..] == [b, c] && [b, c][1..] == [c] && [c][1..] == [];
    assert Run(Apply(Apply(s, a), b), [c]) == Apply(Apply(Apply(s, a), b), c);
  }

  lemma PromiseSet(s: State, k: nat)
    requires Inv(s) && k < |s.threads|
    ensures
      var r, t := Apply(s, SetPromise(k)), s.threads[k];
      && r.reply == s.reply && r.available == s.available && r.threads == s.threads[k := r.threads[k]]
      && if t.Failing? || t.Settling? then r.threads[k].Releasing? && r.threads[k].slot == t.slot else r == s
  {
    assert ThreadOk(s, k);
  }

  lemma Released(s: State, k: nat)
    requires Kept(s) && k < |s.threads|
    ensures
      var r, t := Apply(s, Release(k)), s.threads[k];
      && r.reply == s.reply && r.threads == s.threads[k := r.threads[k]]
      && if t.Releasing?
         then (r.threads[k].Idle? || r.threads[k].Clearing?)
              && t.slot < |s.available| && r.available == s.available[t.slot := true]
         else r == s
  {
    assert Within(s.threads[k], |s.reply|);
  }

  lemma Finished(s: State, k: nat)
    requires Kept(s) && k < |s.threads|
    ensures
      var r := Apply(s, Finish(k));
      && r.reply == s.reply && r.available == s.available
      && r.threads == if s.threads[k].Clearing? then s.threads[k := Idle] else s.threads
  {
    assert Within(s.threads[k], |s.reply|);
  }

  /** A thread that is neither starting nor sending finishes its tail by itself, whatever is locked. */
  lemma TailEnds(s: State, k: nat)
    requires Inv(s) && Kept(s) && k < |s.threads| && !s.threads[k].Starting? && !s.threads[k].Sending?
    ensures
      var r := Run(s, Tail(k));
      && Inv(r) && Kept(r) && r.threads == s.threads[k := Idle] && r.reply == s.reply
      && forall i :: 0 <= i < |s.reply| && (s.available[i] || Holds(s.threads[k], i)) ==> r.available[i]
  {
    RunKept(s, Tail(k));
    RunTail(s, k);
    PromiseSet(s, k);
    var u := Apply(s, SetPromise(k));
    TailKept(s, SetPromise(k));
    Released(u, k);
    TailKept(u, Release(k));
    Finished(Apply(u, Release(k)), k);
  }

  /** Runs all tails. */
  lemma {:induction false} Tails(s: State, n: nat) returns (schedule: seq<Step>)
    requires Inv(s) && Kept(s) && n <= |s.threads|
    requires forall j :: 0 <= j < n ==> s.threads[j].Idle? || s.threads[j].Starting? || s.threads[j].Sending?
    ensures AllCompleting(schedule)
    ensures
      var r := Run(s, schedule);
      && Inv(r) && Kept(r) && |r.threads| == |s.threads| && |r.reply| == |s.reply|
      && NoTails(r)
    decreases |s.threads| - n
  {
    if n == |s.threads| {
      schedule := [];
    } else if s.threads[n].Starting? || s.threads[n].Sending? {
      schedule := Tails(s, n + 1);
    } else {
      TailEnds(s, n);
      var more := Tails(Run(s, Tail(n)), n + 1);
      RunConcat(s, Tail(n), more);
      CompletingConcat(Tail(n), more);
      schedule := Tail(n) + more;
    }
  }

  /** Without tails nothing is locked. */
  lemma NothingLocked(s: State, i: nat)
    requires Kept(s) && i < |s.reply|
    requires NoTails(s)
    ensures !s.locked[i]
  {
    assert LockOk(s, i);
  }

  /** A starter whose command goes out is done. */
  lemma SendEnds(s: State, k: nat)
    requires Inv(s) && Kept(s) && k < |s.threads| && !s.threads[k].Idle?
    requires NoTails(s)
    ensures
      var r := Apply(s, if s.threads[k].Starting? then RegisterAndSend(k, true) else Sent(k, true));
      Inv(r) && Kept(r) && r.threads == s.threads[k := Idle] && |r.reply| == |s.reply|
  {
    var step := if s.threads[k].Starting? then RegisterAndSend(k, true) else Sent(k, true);
    assert ThreadOk(s, k) && Within(s.threads[k], |s.reply|);
    NothingLocked(s, s.threads[k].slot);
    ApplyInv(s, step);
    ApplyKept(s, step);
  }

  /** Lets every command go out. */
  lemma {:induction false} Sends(s: State, n: nat) returns (schedule: seq<Step>)
    requires Inv(s) && Kept(s) && n <= |s.threads|
    requires NoTails(s)
    requires forall j :: 0 <= j < n ==> s.threads[j].Idle?
    ensures AllCompleting(schedule)
    ensures
      var r := Run(s, schedule);
      && Inv(r) && Kept(r) && |r.threads| == |s.threads| && |r.reply| == |s.reply|
      && AllIdle(r)
    decreases |s.threads| - n
  {
    if n == |s.threads| {
      schedule := [];
    } else if s.threads[n].Idle? {
      schedule := Sends(s, n + 1);
    } else {
      SendEnds(s, n);
      var step := if s.threads[n].Starting? then RegisterAndSend(n, true) else Sent(n, true);
      var more := Sends(Apply(s, step), n + 1);
      schedule := [step] + more;
      assert schedule[1..] == more;
    }
  }

  /** A reply and the tail of its delivery. */
  function ReplyTo(i: nat): (steps: seq<Step>)
    ensures AllCompleting(steps)
  {
    [Deliver(0, i)] + Tail(0)
  }

  /** A reply to whatever is registered in a slot frees its ID. */
  lemma ReplyFrees(s: State, i: nat)
    requires Inv(s) && Kept(s) && |s.threads| > 0 && i < |s.reply| && s.reply[i].Some?
    requires AllIdle(s)
    ensures
      var r := Run(s, ReplyTo(i));
      && Inv(r) && Kept(r) && r.threads == s.threads && |r.reply| == |s.reply|
      && r.reply == s.reply[i := None]
  {
    Delivered(s, i);
    var u := Apply(s, Deliver(0, i));
    ApplyInv(s, Deliver(0, i));
    ApplyKept(s, Deliver(0, i));
    TailEnds(u, 0);
    assert ReplyTo(i)[0] == Deliver(0, i) && ReplyTo(i)[1..] == Tail(0);
    assert u.threads[0 := Idle] == s.threads;
  }

  lemma Delivered(s: State, i: nat)
    requires Inv(s) && Kept(s) && |s.threads| > 0 && i < |s.reply| && s.reply[i].Some?
    requires AllIdle(s)
    ensures
      var u := Apply(s, Deliver(0, i));
      && u.reply == s.reply[i := None] && u.threads == s.threads[0 := Settling(s.reply[i].value, i, ByReply)]
  {
    NothingLocked(s, i);
  }

  /** Lets a reply come in for every slot with handlers. */
  lemma {:induction false} Replies(s: State, n: nat) returns (schedule: seq<Step>)
    requires Inv(s) && Kept(s) && |s.threads| > 0 && n <= |s.reply|
    requires AllIdle(s)
    requires forall i :: 0 <= i < n ==> s.reply[i].None?
    ensures AllCompleting(schedule)
    ensures
      var r := Run(s, schedule);
      && Inv(r) && Kept(r) && |r.threads| == |s.threads| && |r.reply| == |s.reply|
      && AllIdle(r)
      && (forall i :: 0 <= i < |r.reply| ==> r.reply[i].None?)
    decreases |s.reply| - n
  {
    if n == |s.reply| {
      schedule := [];
    } else if s.reply[n].None? {
      schedule := Replies(s, n + 1);
    } else {
      ReplyFrees(s, n);
      var first := ReplyTo(n);
      var more := Replies(Run(s, first), n + 1);
      RunConcat(s, first, more);
      CompletingConcat(first, more);
      schedule := first + more;
    }
  }

  /** With every thread idle and no handlers left, all is as in the beginning. */
  lemma AllBack(s: State)
    requires Inv(s) && Kept(s)
    requires AllIdle(s)
    requires forall i :: 0 <= i < |s.reply| ==> s.reply[i].None?
    ensures s.(ops := []) == Initial(|s.reply|, |s.threads|)
  {
    forall i | 0 <= i < |s.reply|
      ensures s.available[i] && !s.locked[i] && s.error[i].None?
    {
      assert BusyOk(s, i) && SlotOk(s, i);
      NothingLocked(s, i);
    }
  }

  /** After any schedule whatever, sends that go through, replies that come in and the remaining tails bring everything
      back: every ID free, every slot empty and unlocked, every thread idle. */
  lemma EveryIdComesBack(slots: nat, threads: nat, schedule: seq<Step>) returns (more: seq<Step>)
    requires threads > 0
    ensures AllCompleting(more)
    ensures Run(Initial(slots, threads), schedule + more).(ops := []) == Initial(slots, threads)
  {
    var s := Run(Initial(slots, threads), schedule);
    InitialKept(slots, threads);
    RunKept(Initial(slots, threads), schedule);
    RunSizes(Initial(slots, threads), schedule);
    var tails := Tails(s, 0);
    var sends := Sends(Run(s, tails), 0);
    var replies := Replies(Run(Run(s, tails), sends), 0);
    more := tails + sends + replies;
    RunConcat(s, tails + sends, replies);
    RunConcat(s, tails, sends);
    RunConcat(Initial(slots, threads), schedule, more);
    AllBack(Run(s, more));
  }

  lemma {:induction false} RunSizes(s: State, schedule: seq<Step>)
    requires Shaped(s)
    ensures |Run(s, schedule).threads| == |s.threads| && |Run(s, schedule).reply| == |s.reply|
    decreases |schedule|
  {
    if schedule != [] {
      var r := Apply(s, schedule[0]);
      assert |r.threads| == |s.threads| && |r.reply| == |s.reply|;
      RunSizes(r, schedule[1..]);
    }
  }
}
