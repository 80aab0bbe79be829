/** What a call for the shared client answers: its own failure, its own cancellation, or the one client some
    call has opened. */
module FleetAnswers {
  import opened Fleet

  /** One of the first `k` steps. */
  ghost predicate Did(steps: seq<Step>, k: nat, step: Step) { exists j :: 0 <= j < k <= |steps| && steps[j] == step }

  /** On its way out, or out, with this result. */
  predicate Ends(pc: Pc, r: Result) { (pc.Dropping? || pc.Notifying? || pc.Finished?) && pc.result == r }

  lemma {:induction false} LastStep(states: seq<State>, steps: seq<Step>, k: nat)
    requires Run(states, steps) && 0 < k < |states|
    ensures Enabled(states[k - 1], steps[k - 1]) && states[k] == Apply(states[k - 1], steps[k - 1])
    ensures states[k].pcs.Keys == states[k - 1].pcs.Keys
    ensures Did(steps, k, steps[k - 1]) && forall step :: Did(steps, k - 1, step) ==> Did(steps, k, step)
  {
    var s, step := states[k - 1], steps[k - 1];
    assert Enabled(s, step) && states[k] == Apply(s, step);
    assert Apply(s, step).pcs.Keys == s.pcs.Keys;
  }

  /** What a step makes of the thread `t`. */
  lemma {:induction false} StepEnds(s: State, step: Step, t: nat)
    requires Enabled(s, step) && t in s.pcs && t in Apply(s, step).pcs
    ensures Ends(Apply(s, step).pcs[t], Failed) ==> Ends(s.pcs[t], Failed) || step == OpenFailed(t)
    ensures Ends(Apply(s, step).pcs[t], Cancelled) ==>
              Ends(s.pcs[t], Cancelled) || (s.IsCancelled(t) && Apply(s, step).pcs[t].Finished?)
    ensures forall c :: Apply(s, step).pcs[t] == Publishing(c) ==> s.pcs[t] == Publishing(c) || step == OpenOk(t, c)
    ensures Apply(s, step).caller == s.caller && s.cancelled <= Apply(s, step).cancelled
  {
    if !Acts(step, t) { OthersStay(s, step, t); }
  }

  /** A call that fails failed to open the client itself. */
  lemma {:induction false} FailureIsOwn(states: seq<State>, steps: seq<Step>, k: nat, t: nat)
    requires Run(states, steps) && k < |states| && t in states[k].pcs && Ends(states[k].pcs[t], Failed)
    ensures Did(steps, k, OpenFailed(t))
  {
    if k > 0 {
      LastStep(states, steps, k);
      StepEnds(states[k - 1], steps[k - 1], t);
      if Ends(states[k - 1].pcs[t], Failed) { FailureIsOwn(states, steps, k - 1, t); }
    }
  }

  /** A call that answers the cancellation has a caller that was cancelled. */
  lemma {:induction false} CancellationIsOwn(states: seq<State>, steps: seq<Step>, k: nat, t: nat)
    requires Run(states, steps) && k < |states| && t in states[k].pcs && Ends(states[k].pcs[t], Cancelled)
    ensures states[k].pcs[t].Finished? && states[k].IsCancelled(t)
  {
    if k > 0 {
      LastStep(states, steps, k);
      StepEnds(states[k - 1], steps[k - 1], t);
      if Ends(states[k - 1].pcs[t], Cancelled) {
        CancellationIsOwn(states, steps, k - 1, t);
        FinishedStays(states[k - 1], steps[k - 1], t);
      }
    }
  }

  lemma {:induction false} FinishedStays(s: State, step: Step, t: nat)
    requires Enabled(s, step) && t in s.pcs && s.pcs[t].Finished?
    ensures t in Apply(s, step).pcs && Apply(s, step).pcs[t] == s.pcs[t]
  {
    if !Acts(step, t) { OthersStay(s, step, t); }
  }

  lemma {:induction false} PublisherOpened(states: seq<State>, steps: seq<Step>, k: nat, t: nat, c: nat)
    requires Run(states, steps) && k < |states| && t in states[k].pcs && states[k].pcs[t] == Publishing(c)
    ensures Did(steps, k, OpenOk(t, c))
  {
    if k > 0 {
      LastStep(states, steps, k);
      StepEnds(states[k - 1], steps[k - 1], t);
      if states[k - 1].pcs[t] == Publishing(c) { PublisherOpened(states, steps, k - 1, t, c); }
    }
  }

  /** The client in the slot is one a call opened. */
  lemma {:induction false} ReadyWasOpened(states: seq<State>, steps: seq<Step>, k: nat, c: nat)
    requires Run(states, steps) && k < |states| && states[k].slot == Ready(c)
    ensures exists u :: Did(steps, k, OpenOk(u, c))
  {
    if k > 0 {
      LastStep(states, steps, k);
      var s, step := states[k - 1], steps[k - 1];
      if s.slot == Ready(c) {
        ReadyWasOpened(states, steps, k - 1, c);
        var u :| Did(steps, k - 1, OpenOk(u, c));
        assert Did(steps, k, OpenOk(u, c));
      } else {
        assert step.Publish?;
        PublisherOpened(states, steps, k - 1, step.t, c);
        assert Did(steps, k, OpenOk(step.t, c));
      }
    }
  }

  /** Which answer a call gets, told by the run: the client that some call opened, its own failure to open, or
      the cancellation of its own caller. */
  lemma {:induction false} AnswersAreTrue(states: seq<State>, steps: seq<Step>, k: nat, t: nat)
    requires Run(states, steps) && k < |states| && t in states[k].pcs && states[k].pcs[t].Finished?
    ensures match states[k].pcs[t].result
            case Ok(c) => states[k].slot == Ready(c) && exists u :: Did(steps, k, OpenOk(u, c))
            case Failed => Did(steps, k, OpenFailed(t))
            case Cancelled => states[k].IsCancelled(t)
  {
    match states[k].pcs[t].result
    case Ok(c) =>
      RunInv(states, steps, k);
      GivenIsReady(states[k], t, c);
      ReadyWasOpened(states, steps, k, c);
    case Failed => FailureIsOwn(states, steps, k, t);
    case Cancelled => CancellationIsOwn(states, steps, k, t);
  }

  /** A call that begins when the client is ready is answered that client without waiting, unless its caller
      is cancelled before its first check. */
  lemma {:induction false} LateCallIsAnswered(states: seq<State>, steps: seq<Step>, i: nat, k: nat, t: nat, c: nat)
    requires Run(states, steps) && i <= k < |states| && states[i].slot == Ready(c)
    requires t in states[i].pcs && states[i].pcs[t] == Start
    ensures t in states[k].pcs && states[k].slot == Ready(c)
    ensures states[k].pcs[t] == Start || states[k].pcs[t] == Fast || states[k].pcs[t] == Finished(Ok(c)) ||
            (states[k].pcs[t] == Finished(Cancelled) && states[k].IsCancelled(t))
  {
    if i < k {
      LateCallIsAnswered(states, steps, i, k - 1, t, c);
      LastStep(states, steps, k);
      ReadyIsForGood(states, steps, i, k);
      var s, step := states[k - 1], steps[k - 1];
      if !Acts(step, t) { OthersStay(s, step, t); }
      StepEnds(s, step, t);
      if s.pcs[t].Finished? { FinishedStays(s, step, t); }
    }
  }
}
