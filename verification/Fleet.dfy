/** One database client for a whole process. Of any number of threads that ask for it, one opens it while
    the others wait or are cancelled. Threads take atomic steps; a step that
    enters the mutex needs it free. */
module Fleet {

  datatype Option<T> = None | Some(value: T)

  datatype Slot = Closed | Opening | Ready(client: nat)

  datatype Result = Ok(client: nat) | Failed | Cancelled

  /** Where a thread stands inside `client()`. */
  datatype Pc =
    | Start                         // the first cancellation check
    | Fast                          // wants the lock for a first look
    | Registering                   // wants its wake registered
    | Looping                       // the check at the top of the loop
    | Locking                       // wants the lock
    | Inspecting                    // holds the lock, looks at the slot
    | Waiting                       // holds the lock, saw Opening, is not cancelled: about to wait
    | Asleep                        // waits on the condition variable
    | Woken                         // notified, wants the lock back
    | Connecting                    // holds the Opening guard, `open` runs
    | Publishing(client: nat)       // `open` answered a client
    | Dropping(result: Result)      // the guard is dropped: wants the lock
    | Notifying(result: Result)     // the guard has let go of the lock and is about to notify
    | Finished(result: Result)

  /** `caller` is the cancellation token of a thread's caller, if it has one. Announcements made but
      not begun are counted in `due`; `ringing` holds the registered wakes the announcement under
      way has still to run. */
  datatype State = State(
    slot: Slot, lock: Option<nat>, pcs: map<nat, Pc>, caller: map<nat, nat>,
    cancelled: set<nat>, registered: set<nat>, due: nat, ringing: Option<set<nat>>)
  {
    predicate IsCancelled(t: nat) { t in caller && caller[t] in cancelled }
  }

  datatype Step =
    | Check(t: nat) | Look(t: nat) | Register(t: nat) | Recheck(t: nat) | Lock(t: nat) | Inspect(t: nat)
    | Wait(t: nat) | Wake(t: nat) | Relock(t: nat)
    | OpenOk(t: nat, client: nat) | OpenFailed(t: nat) | Publish(t: nat) | Drop(t: nat) | Notify(t: nat)
    | Cancel(token: nat) | BeginRinging | Ring(t: nat) | EndRinging

  function At(s: State, t: nat): Pc { if t in s.pcs then s.pcs[t] else Finished(Failed) }

  function Goto(s: State, t: nat, pc: Pc): State { s.(pcs := s.pcs[t := pc]) }

  /** A thread leaves `client()`: its registration goes with it. */
  function Leave(s: State, t: nat, r: Result): State
  {
    s.(pcs := s.pcs[t := Finished(r)], registered := s.registered - {t})
  }

  /** Every sleeper wakes. */
  function NotifyAll(s: State): State
  {
    s.(pcs := map t | t in s.pcs :: if s.pcs[t] == Asleep then Woken else s.pcs[t])
  }

  predicate Enabled(s: State, step: Step)
  {
    match step
    case Check(t) => At(s, t) == Start
    case Look(t) => At(s, t) == Fast && s.lock == None
    case Register(t) => At(s, t) == Registering && s.ringing == None
    case Recheck(t) => At(s, t) == Looping
    case Lock(t) => At(s, t) == Locking && s.lock == None
    case Inspect(t) => At(s, t) == Inspecting
    case Wait(t) => At(s, t) == Waiting
    case Wake(t) => At(s, t) == Asleep
    case Relock(t) => At(s, t) == Woken && s.lock == None
    case OpenOk(t, _) => At(s, t) == Connecting
    case OpenFailed(t) => At(s, t) == Connecting
    case Publish(t) => At(s, t).Publishing? && s.lock == None
    case Drop(t) => At(s, t).Dropping? && s.lock == None
    case Notify(t) => At(s, t).Notifying?
    case Cancel(_) => true
    case BeginRinging => s.ringing == None && s.due > 0
    case Ring(t) => s.ringing.Some? && t in s.ringing.value && (t in s.registered && s.IsCancelled(t) ==> s.lock == None)
    case EndRinging => s.ringing == Some({})
  }

  function Apply(s: State, step: Step): State
    requires Enabled(s, step)
  {
    match step
    case Check(t) => if s.IsCancelled(t) then Leave(s, t, Cancelled) else Goto(s, t, Fast)
    case Look(t) => if s.slot.Ready? then Leave(s, t, Ok(s.slot.client)) else Goto(s, t, Registering)
    case Register(t) =>
      Goto(if t in s.caller then s.(registered := s.registered + {t}) else s, t, Looping)
    case Recheck(t) => if s.IsCancelled(t) then Leave(s, t, Cancelled) else Goto(s, t, Locking)
    case Lock(t) => Goto(s.(lock := Some(t)), t, Inspecting)
    case Inspect(t) =>
      (match s.slot
       case Ready(client) => Leave(s.(lock := None), t, Ok(client))
       case Opening => if s.IsCancelled(t) then Leave(s.(lock := None), t, Cancelled) else Goto(s, t, Waiting)
       case Closed => Goto(s.(lock := None, slot := Opening), t, Connecting))
    case Wait(t) => Goto(s.(lock := None), t, Asleep)
    case Wake(t) => Goto(s, t, Woken)
    case Relock(t) => Goto(s, t, Looping)
    case OpenOk(t, client) => Goto(s, t, Publishing(client))
    case OpenFailed(t) => Goto(s, t, Dropping(Failed))
    case Publish(t) => Goto(s.(slot := Ready(s.pcs[t].client)), t, Dropping(Ok(s.pcs[t].client)))
    case Drop(t) =>
      Goto(s.(slot := if s.slot == Opening then Closed else s.slot), t, Notifying(s.pcs[t].result))
    case Notify(t) => Leave(NotifyAll(s), t, s.pcs[t].result)
    case Cancel(token) => s.(cancelled := s.cancelled + {token}, due := s.due + 1)
    case BeginRinging => s.(ringing := Some(s.registered), due := s.due - 1)
    case Ring(t) =>
      var rest := s.(ringing := Some(s.ringing.value - {t}));
      if t in s.registered && s.IsCancelled(t) then NotifyAll(rest) else rest
    case EndRinging => s.(ringing := None)
  }

  /** Any number of threads before their call, with any callers. */
  ghost predicate Initial(s: State)
  {
    s.slot == Closed && s.lock == None && (forall t :: t in s.pcs ==> s.pcs[t] == Start) &&
    s.cancelled == {} && s.registered == {} && s.due == 0 && s.ringing == None
  }

  // ---- The invariant ----

  /** The thread whose guard stands for the Opening slot. */
  predicate Opens(pc: Pc) { pc.Connecting? || pc.Publishing? || (pc.Dropping? && !pc.result.Ok?) }

  /** A thread that will still notify every sleeper. */
  predicate WillNotify(pc: Pc) { pc.Connecting? || pc.Publishing? || pc.Dropping? || pc.Notifying? }

  predicate HoldsLock(pc: Pc) { pc.Inspecting? || pc.Waiting? }

  /** The client a thread was given. */
  predicate Has(pc: Pc, client: nat)
  {
    (pc.Dropping? || pc.Notifying? || pc.Finished?) && pc.result == Ok(client)
  }

  /** Inside the part of the call that the registered wake covers. */
  predicate Covered(pc: Pc) { !pc.Start? && !pc.Fast? && !pc.Registering? && !pc.Finished? }

  ghost predicate LockOwned(s: State)
  {
    forall t :: t in s.pcs ==> (HoldsLock(s.pcs[t]) <==> s.lock == Some(t))
  }

  ghost function Openers(s: State): set<nat> { set t | t in s.pcs && Opens(s.pcs[t]) }

  /** Opening has exactly one live opener, any other slot none. */
  ghost predicate OneOpener(s: State)
  {
    if s.slot == Opening then exists u :: Openers(s) == {u} else Openers(s) == {}
  }

  ghost predicate OneClient(s: State)
  {
    forall t, client :: t in s.pcs && Has(s.pcs[t], client) ==> s.slot == Ready(client)
  }

  ghost predicate NoSleeperForgotten(s: State)
  {
    (forall t :: t in s.pcs && s.pcs[t] == Waiting ==> s.slot == Opening) &&
    ((exists t :: t in s.pcs && s.pcs[t] == Asleep) ==> exists u :: u in s.pcs && WillNotify(s.pcs[u]))
  }

  /** A cancellation of `t` still has to reach it: an announcement has not begun or not got to it. */
  predicate WillRing(s: State, t: nat) { s.due > 0 || (s.ringing.Some? && t in s.ringing.value) }

  ghost predicate CancellationReaches(s: State)
  {
    (forall t :: t in s.pcs && t in s.caller && Covered(s.pcs[t]) ==> t in s.registered) &&
    (forall t :: t in s.pcs && (s.pcs[t] == Waiting || s.pcs[t] == Asleep) && s.IsCancelled(t) ==> WillRing(s, t))
  }

  ghost predicate Inv(s: State)
  {
    LockOwned(s) && (s.lock.Some? ==> s.lock.value in s.pcs) && OneOpener(s) && OneClient(s) &&
    NoSleeperForgotten(s) && CancellationReaches(s)
  }

  lemma {:induction false} InitialInv(s: State)
    requires Initial(s)
    ensures Inv(s)
  {
  }

  lemma {:induction false} StepKeepsLock(s: State, step: Step)
    requires Inv(s) && Enabled(s, step)
    ensures LockOwned(Apply(s, step)) && (Apply(s, step).lock.Some? ==> Apply(s, step).lock.value in Apply(s, step).pcs)
  {
  }

  /** Only three kinds of step make or unmake an opener. */
  lemma {:induction false} OpenersAfter(s: State, step: Step)
    requires Enabled(s, step)
    ensures Openers(Apply(s, step)) ==
              if step.Inspect? && s.slot == Closed then Openers(s) + {step.t}
              else if (step.Publish? || step.Drop?) then Openers(s) - {step.t}
              else Openers(s)
  {
    var z := Apply(s, step);
    forall t ensures t in Openers(z) <==>
        t in (if step.Inspect? && s.slot == Closed then Openers(s) + {step.t}
              else if (step.Publish? || step.Drop?) then Openers(s) - {step.t}
              else Openers(s))
    {
      match step {
        case Inspect(u) =>
        case Publish(u) =>
        case Drop(u) =>
        case _ =>
      }
    }
  }

  lemma {:induction false} StepKeepsOpener(s: State, step: Step)
    requires Inv(s) && Enabled(s, step)
    ensures OneOpener(Apply(s, step))
  {
    OpenersAfter(s, step);
    var z := Apply(s, step);
    if step.Publish? || (step.Drop? && Opens(s.pcs[step.t])) {
      assert step.t in Openers(s);
      assert Openers(s) - {step.t} == {};
    } else if step.Inspect? && s.slot == Closed {
      assert Openers(z) == {step.t};
    } else {
      if step.Drop? {
        var result := s.pcs[step.t].result;
        assert Has(s.pcs[step.t], result.client) && s.slot == Ready(result.client);
        assert step.t !in Openers(s);
      }
    }
  }

  /** What one step leaves of a thread it does not name. */
  lemma {:induction false} OthersStay(s: State, step: Step, u: nat)
    requires Enabled(s, step) && u in s.pcs && !Acts(step, u)
    ensures u in Apply(s, step).pcs
    ensures Apply(s, step).pcs[u] == s.pcs[u] || (s.pcs[u] == Asleep && Apply(s, step).pcs[u] == Woken)
    ensures u in Apply(s, step).registered <==> u in s.registered
  {
  }

  /** The thread whose own step `step` is. */
  predicate Acts(step: Step, u: nat)
  {
    match step
    case Cancel(_) => false
    case BeginRinging => false
    case Ring(_) => false
    case EndRinging => false
    case _ => step.t == u
  }

  lemma {:induction false} StepKeepsClient(s: State, step: Step)
    requires Inv(s) && Enabled(s, step)
    ensures OneClient(Apply(s, step))
    ensures s.slot.Ready? ==> Apply(s, step).slot == s.slot
  {
    var z := Apply(s, step);
    if step.Publish? {
      assert step.t in Openers(s);
    }
    assert s.slot.Ready? ==> z.slot == s.slot;
    forall u, client | u in z.pcs && Has(z.pcs[u], client) ensures z.slot == Ready(client) {
      if !Acts(step, u) {
        OthersStay(s, step, u);
      }
    }
  }

  /** The slot stays Opening while a thread is about to wait: it holds the lock. */
  lemma {:induction false} WaitingSeesOpening(s: State, step: Step, t: nat)
    requires Inv(s) && Enabled(s, step) && t in Apply(s, step).pcs && Apply(s, step).pcs[t] == Waiting
    ensures Apply(s, step).slot == Opening
  {
    if !Acts(step, t) {
      OthersStay(s, step, t);
      assert s.lock == Some(t);
    }
  }

  /** While a thread sleeps some thread will still notify. */
  lemma {:induction false} SleeperHasNotifier(s: State, step: Step, t: nat)
    requires Inv(s) && Enabled(s, step) && t in Apply(s, step).pcs && Apply(s, step).pcs[t] == Asleep
    ensures exists u :: u in Apply(s, step).pcs && WillNotify(Apply(s, step).pcs[u])
  {
    var z := Apply(s, step);
    var u: nat;
    if step.Wait? {
      u :| Openers(s) == {u};
      assert u in Openers(s);
    } else {
      if !Acts(step, t) {
        OthersStay(s, step, t);
      }
      assert s.pcs[t] == Asleep;
      u :| u in s.pcs && WillNotify(s.pcs[u]);
    }
    if !Acts(step, u) {
      OthersStay(s, step, u);
    }
    assert u in z.pcs && WillNotify(z.pcs[u]);
  }

  lemma {:induction false} StepForgetsNoSleeper(s: State, step: Step)
    requires Inv(s) && Enabled(s, step)
    ensures NoSleeperForgotten(Apply(s, step))
  {
    var z := Apply(s, step);
    forall t | t in z.pcs && z.pcs[t] == Waiting ensures z.slot == Opening {
      WaitingSeesOpening(s, step, t);
    }
    if t :| t in z.pcs && z.pcs[t] == Asleep {
      SleeperHasNotifier(s, step, t);
    }
  }

  lemma {:induction false} StepKeepsCancellation(s: State, step: Step)
    requires Inv(s) && Enabled(s, step)
    ensures CancellationReaches(Apply(s, step))
  {
    var z := Apply(s, step);
    forall t | t in z.pcs && t in z.caller && Covered(z.pcs[t]) ensures t in z.registered {
      StaysRegistered(s, step, t);
    }
    forall t | t in z.pcs && (z.pcs[t] == Waiting || z.pcs[t] == Asleep) && z.IsCancelled(t) ensures WillRing(z, t) {
      WaiterIsRung(s, step, t);
    }
  }

  lemma {:induction false} StaysRegistered(s: State, step: Step, t: nat)
    requires Inv(s) && Enabled(s, step) && t in Apply(s, step).pcs && t in Apply(s, step).caller
    requires Covered(Apply(s, step).pcs[t])
    ensures t in Apply(s, step).registered
  {
    if !Acts(step, t) {
      OthersStay(s, step, t);
    }
  }

  lemma {:induction false} WaiterIsRung(s: State, step: Step, t: nat)
    requires Inv(s) && Enabled(s, step) && t in Apply(s, step).pcs && Apply(s, step).IsCancelled(t)
    requires Apply(s, step).pcs[t] == Waiting || Apply(s, step).pcs[t] == Asleep
    ensures WillRing(Apply(s, step), t)
  {
    if Acts(step, t) {
      assert step.Wait? || step.Inspect?;
    } else {
      OthersStay(s, step, t);
      StillRings(s, step, t);
    }
  }

  /** A cancellation on its way to a waiting thread stays on its way until the thread is woken. */
  lemma {:induction false} StillRings(s: State, step: Step, t: nat)
    requires Inv(s) && Enabled(s, step) && t in s.pcs && !Acts(step, t)
    requires s.pcs[t] == Waiting || s.pcs[t] == Asleep
    requires Apply(s, step).pcs[t] == s.pcs[t] && Apply(s, step).IsCancelled(t)
    ensures WillRing(Apply(s, step), t)
  {
    assert t in s.registered;
    if step.Ring? {
      assert s.pcs[t] == Waiting ==> s.lock == Some(t);
    }
  }

  lemma {:induction false} StepKeepsInv(s: State, step: Step)
    requires Inv(s) && Enabled(s, step)
    ensures Inv(Apply(s, step))
  {
    StepKeepsLock(s, step);
    StepKeepsOpener(s, step);
    StepKeepsClient(s, step);
    StepForgetsNoSleeper(s, step);
    StepKeepsCancellation(s, step);
  }

  // ---- Runs ----

  ghost predicate Run(states: seq<State>, steps: seq<Step>)
  {
    |states| == |steps| + 1 && Initial(states[0]) &&
    forall k {:trigger steps[k]} :: 0 <= k < |steps| ==>
      Enabled(states[k], steps[k]) && states[k + 1] == Apply(states[k], steps[k])
  }

  lemma {:induction false} RunInv(states: seq<State>, steps: seq<Step>, k: nat)
    requires Run(states, steps) && k < |states|
    ensures Inv(states[k])
  {
    if k == 0 {
      InitialInv(states[0]);
    } else {
      RunInv(states, steps, k - 1);
      StepKeepsInv(states[k - 1], steps[k - 1]);
    }
  }

  /** Once Ready, the slot holds the same client for good. */
  lemma {:induction false} ReadyIsForGood(states: seq<State>, steps: seq<Step>, j: nat, k: nat)
    requires Run(states, steps) && j <= k < |states| && states[j].slot.Ready?
    ensures states[k].slot == states[j].slot
  {
    if j < k {
      ReadyIsForGood(states, steps, j, k - 1);
      RunInv(states, steps, k - 1);
      StepKeepsClient(states[k - 1], steps[k - 1]);
    }
  }

  lemma {:induction false} GivenIsReady(s: State, t: nat, client: nat)
    requires Inv(s) && At(s, t) == Finished(Ok(client))
    ensures s.slot == Ready(client)
  {
    assert t in s.pcs && Has(s.pcs[t], client);
  }

  /** The connection is a singleton: any two threads ever answered a client were answered the same. */
  lemma {:induction false} OneClientForAll(states: seq<State>, steps: seq<Step>, j: nat, k: nat, t: nat, u: nat,
                                           c: nat, d: nat)
    requires Run(states, steps) && j <= k < |states|
    requires At(states[j], t) == Finished(Ok(c)) && At(states[k], u) == Finished(Ok(d))
    ensures c == d
  {
    RunInv(states, steps, j);
    RunInv(states, steps, k);
    GivenIsReady(states[j], t, c);
    GivenIsReady(states[k], u, d);
    ReadyIsForGood(states, steps, j, k);
  }

  /** Every sleeping waiter has a notification still to come, from the opener or from whoever follows
      it, and when its caller is cancelled from the announcement too. */
  lemma {:induction false} NoWaiterIsStranded(states: seq<State>, steps: seq<Step>, k: nat, t: nat)
    requires Run(states, steps) && k < |states| && At(states[k], t) == Asleep
    ensures exists u :: u in states[k].pcs && u != t && WillNotify(states[k].pcs[u])
    ensures states[k].IsCancelled(t) ==> t in states[k].registered && WillRing(states[k], t)
  {
    RunInv(states, steps, k);
    var s := states[k];
    assert t in s.pcs && s.pcs[t] == Asleep;
    var u :| u in s.pcs && WillNotify(s.pcs[u]);
    assert s.IsCancelled(t) ==> Covered(s.pcs[t]);
  }

  /** A step other than a new cancellation or a wake without a cause. */
  predicate Progress(step: Step) { !step.Cancel? && !step.Wake? }

  /** No deadlock: while a thread is inside `client()` some step of progress is possible. */
  lemma {:induction false} NoDeadlock(s: State, t: nat) returns (step: Step)
    requires Inv(s) && t in s.pcs && !s.pcs[t].Finished?
    ensures Enabled(s, step) && Progress(step)
  {
    if s.lock.Some? {
      var holder := s.lock.value;
      step := if s.pcs[holder] == Inspecting then Inspect(holder) else Wait(holder);
    } else if s.ringing.Some? {
      if s.ringing.value == {} {
        step := EndRinging;
      } else {
        var r :| r in s.ringing.value;
        step := Ring(r);
      }
    } else {
      var actor := t;
      if s.pcs[t] == Asleep {
        actor :| actor in s.pcs && WillNotify(s.pcs[actor]);
      }
      step := OwnStep(s, actor);
    }
  }

  /** The next step of a thread that is not asleep, when both locks are free. */
  function OwnStep(s: State, t: nat): (step: Step)
    requires t in s.pcs && s.lock == None && s.ringing == None && LockOwned(s)
    requires !s.pcs[t].Finished? && s.pcs[t] != Asleep
    ensures Enabled(s, step) && Progress(step) && Acts(step, t)
  {
    match s.pcs[t]
    case Start => Check(t)
    case Fast => Look(t)
    case Registering => Register(t)
    case Looping => Recheck(t)
    case Locking => Lock(t)
    case Woken => Relock(t)
    case Connecting => OpenFailed(t)
    case Publishing(_) => Publish(t)
    case Dropping(_) => Drop(t)
    case Notifying(_) => Notify(t)
    case _ => Check(t)
  }

  /** A cancelled waiter is let go: the announcement that rings for it wakes it, and its next check
      answers Cancelled. */
  lemma {:induction false} CancelledWaiterLeaves(s: State, t: nat)
    requires Inv(s) && At(s, t) == Asleep && s.IsCancelled(t) && s.lock == None
    requires s.ringing.Some? && t in s.ringing.value
    ensures Enabled(s, Ring(t)) && Enabled(Apply(s, Ring(t)), Relock(t))
    ensures var woken := Apply(Apply(s, Ring(t)), Relock(t));
            Enabled(woken, Recheck(t)) && At(Apply(woken, Recheck(t)), t) == Finished(Cancelled)
  {
    assert t in s.pcs && Covered(s.pcs[t]);
  }
}
