/** Every call for the shared client returns. A potential pays for the steps of a run: each step of progress
    lowers it, and only a new cancellation or a wake without a cause raises it, by a known amount. So a run
    is bounded by its threads, cancellations and such wakes, and one that cannot go on has all its calls
    answered. */
module FleetProgress {
  import opened Fleet

  /** Steps a thread has yet to take before it leaves or sleeps, and a little more before it sleeps again. */
  function Rank(pc: Pc): nat
  {
    match pc
    case Start => 12
    case Fast => 11
    case Registering => 10
    case Woken => 9
    case Looping => 8
    case Locking => 7
    case Inspecting => 6
    case Waiting => 5
    case Asleep => 4
    case Connecting => 4
    case Publishing(_) => 3
    case Dropping(_) => 2
    case Notifying(_) => 1
    case Finished(_) => 0
  }

  /** What waking all of `n` threads can cost, and one more. */
  function Alarm(n: nat): nat { 5 * n + 1 }

  /** A thread in its call may still wake all others when it leaves. */
  function Weight(pc: Pc, n: nat): nat { if pc.Finished? then 0 else Alarm(n) + Rank(pc) }

  ghost function Weights(pcs: map<nat, Pc>, ts: set<nat>, n: nat): nat
    requires ts <= pcs.Keys
  {
    if ts == {} then 0
    else
      var t :| t in ts;
      Weight(pcs[t], n) + Weights(pcs, ts - {t}, n)
  }

  function Times(k: nat, a: nat): nat { if k == 0 then 0 else a + Times(k - 1, a) }

  /** What an announcement can cost that has not begun: it may ring for every thread. */
  function Announcement(n: nat): nat { Times(n, Alarm(n)) + 2 }

  function Rings(ringing: Option<set<nat>>, n: nat): nat
  {
    if ringing.None? then 0 else Times(|ringing.value|, Alarm(n)) + 1
  }

  ghost function Potential(s: State): nat
  {
    var n := |s.pcs|;
    Times(s.due, Announcement(n)) + Rings(s.ringing, n) + Weights(s.pcs, s.pcs.Keys, n)
  }

  /** What a step may add to the potential, and itself. */
  function Allowance(step: Step, n: nat): nat
  {
    if step.Cancel? then Announcement(n) + 1 else if step.Wake? then 6 else 0
  }

  // ---- Sums over threads ----

  lemma {:induction false} WeightsOf(pcs: map<nat, Pc>, ts: set<nat>, n: nat, t: nat)
    requires ts <= pcs.Keys && t in ts
    ensures Weights(pcs, ts, n) == Weight(pcs[t], n) + Weights(pcs, ts - {t}, n)
    decreases |ts|
  {
    var u :| u in ts && Weights(pcs, ts, n) == Weight(pcs[u], n) + Weights(pcs, ts - {u}, n);
    if u != t {
      WeightsOf(pcs, ts - {u}, n, t);
      WeightsOf(pcs, ts - {t}, n, u);
      assert ts - {u} - {t} == ts - {t} - {u};
    }
  }

  /** No thread gains more than five when all that happens to threads is that some wake. */
  lemma {:induction false} WakingCosts(pcs: map<nat, Pc>, pcs': map<nat, Pc>, ts: set<nat>, n: nat)
    requires ts <= pcs.Keys && ts <= pcs'.Keys
    requires forall t :: t in ts ==> pcs'[t] == pcs[t] || (pcs[t] == Asleep && pcs'[t] == Woken)
    ensures Weights(pcs', ts, n) <= Weights(pcs, ts, n) + 5 * |ts|
    decreases |ts|
  {
    if t :| t in ts {
      WeightsOf(pcs, ts, n, t);
      WeightsOf(pcs', ts, n, t);
      WakingCosts(pcs, pcs', ts - {t}, n);
    }
  }

  lemma {:induction false} SameWeights(pcs: map<nat, Pc>, pcs': map<nat, Pc>, ts: set<nat>, n: nat)
    requires ts <= pcs.Keys && ts <= pcs'.Keys && forall t :: t in ts ==> pcs'[t] == pcs[t]
    ensures Weights(pcs', ts, n) == Weights(pcs, ts, n)
    decreases |ts|
  {
    if t :| t in ts {
      WeightsOf(pcs, ts, n, t);
      WeightsOf(pcs', ts, n, t);
      SameWeights(pcs, pcs', ts - {t}, n);
    }
  }

  lemma {:induction false} OneMoves(pcs: map<nat, Pc>, t: nat, pc: Pc, n: nat)
    requires t in pcs
    ensures Weights(pcs[t := pc], pcs.Keys, n) == Weights(pcs, pcs.Keys, n) - Weight(pcs[t], n) + Weight(pc, n)
  {
    WeightsOf(pcs, pcs.Keys, n, t);
    WeightsOf(pcs[t := pc], pcs.Keys, n, t);
    SameWeights(pcs, pcs[t := pc], pcs.Keys - {t}, n);
  }

  lemma {:induction false} TimesMore(j: nat, k: nat, a: nat)
    requires j <= k
    ensures Times(j, a) <= Times(k, a)
    decreases k
  {
    if j < k { TimesMore(j, k - 1, a); }
  }

  lemma {:induction false} Fewer(a: set<nat>, b: set<nat>)
    requires a <= b
    ensures |a| <= |b|
    decreases |a|
  {
    if x :| x in a { Fewer(a - {x}, b - {x}); }
  }

  // ---- Every step pays ----

  /** Only threads of the process have wakes registered. */
  ghost predicate Known(s: State) { s.registered <= s.pcs.Keys }

  lemma {:induction false} StepKeepsThreads(s: State, step: Step)
    requires Known(s) && Enabled(s, step)
    ensures Known(Apply(s, step)) && Apply(s, step).pcs.Keys == s.pcs.Keys && |Apply(s, step).pcs| == |s.pcs|
  {
    var z := Apply(s, step);
    assert z.pcs.Keys == s.pcs.Keys;
    assert |z.pcs| == |z.pcs.Keys| && |s.pcs| == |s.pcs.Keys|;
  }

  /** A thread's own step, except the one that wakes the others, moves that thread alone and down. */
  lemma {:induction false} OwnStepPays(s: State, step: Step, t: nat) returns (pc: Pc)
    requires Enabled(s, step) && Acts(step, t) && !step.Notify?
    ensures t in s.pcs && !s.pcs[t].Finished? && Apply(s, step).pcs == s.pcs[t := pc]
    ensures if step.Wake? then Rank(pc) <= Rank(s.pcs[t]) + 5 else Rank(pc) < Rank(s.pcs[t])
    ensures Apply(s, step).due == s.due && Apply(s, step).ringing == s.ringing
  {
    assert t in s.pcs && !s.pcs[t].Finished?;
    pc := Apply(s, step).pcs[t];
    assert Apply(s, step).pcs == s.pcs[t := pc];
  }

  lemma {:induction false} MovePays(s: State, step: Step, t: nat)
    requires Known(s) && Enabled(s, step) && Acts(step, t) && !step.Notify?
    ensures Potential(Apply(s, step)) + 1 <= Potential(s) + Allowance(step, |s.pcs|)
  {
    var pc := OwnStepPays(s, step, t);
    StepKeepsThreads(s, step);
    OneMoves(s.pcs, t, pc, |s.pcs|);
  }

  lemma {:induction false} NotifyAllCosts(s: State)
    ensures NotifyAll(s).pcs.Keys == s.pcs.Keys
    ensures Weights(NotifyAll(s).pcs, s.pcs.Keys, |s.pcs|) <= Weights(s.pcs, s.pcs.Keys, |s.pcs|) + 5 * |s.pcs|
  {
    assert NotifyAll(s).pcs.Keys == s.pcs.Keys;
    assert |s.pcs| == |s.pcs.Keys|;
    WakingCosts(s.pcs, NotifyAll(s).pcs, s.pcs.Keys, |s.pcs|);
  }

  lemma {:induction false} NotifyPays(s: State, t: nat)
    requires Known(s) && Enabled(s, Notify(t))
    ensures Potential(Apply(s, Notify(t))) + 1 <= Potential(s)
  {
    StepKeepsThreads(s, Notify(t));
    NotifyAllCosts(s);
    var rung := NotifyAll(s).pcs;
    OneMoves(rung, t, Finished(s.pcs[t].result), |s.pcs|);
    assert rung[t] == s.pcs[t];
  }

  lemma {:induction false} RingPays(s: State, t: nat)
    requires Known(s) && Enabled(s, Ring(t))
    ensures Potential(Apply(s, Ring(t))) + 1 <= Potential(s)
  {
    StepKeepsThreads(s, Ring(t));
    NotifyAllCosts(s);
    assert |s.ringing.value - {t}| == |s.ringing.value| - 1;
  }

  lemma {:induction false} BeginRingingPays(s: State)
    requires Known(s) && Enabled(s, BeginRinging)
    ensures Potential(Apply(s, BeginRinging)) + 1 <= Potential(s)
  {
    Fewer(s.registered, s.pcs.Keys);
    assert |s.pcs| == |s.pcs.Keys|;
    TimesMore(|s.registered|, |s.pcs|, Alarm(|s.pcs|));
  }

  /** Every step is paid for by the potential and its own allowance; a step of progress has none. */
  lemma {:induction false} StepPays(s: State, step: Step)
    requires Known(s) && Enabled(s, step)
    ensures Potential(Apply(s, step)) + 1 <= Potential(s) + Allowance(step, |s.pcs|)
    ensures Progress(step) ==> Allowance(step, |s.pcs|) == 0
  {
    match step
    case Notify(t) => NotifyPays(s, t);
    case Ring(t) => RingPays(s, t);
    case BeginRinging => BeginRingingPays(s);
    case EndRinging =>
    case Cancel(_) =>
    case _ => MovePays(s, step, step.t);
  }

  // ---- Runs ----

  function Allowances(steps: seq<Step>, n: nat): nat
  {
    if steps == [] then 0 else Allowances(steps[..|steps| - 1], n) + Allowance(steps[|steps| - 1], n)
  }

  lemma {:induction false} RunPays(states: seq<State>, steps: seq<Step>, k: nat)
    requires Run(states, steps) && k < |states|
    ensures Known(states[k]) && |states[k].pcs| == |states[0].pcs|
    ensures k + Potential(states[k]) <= Potential(states[0]) + Allowances(steps[..k], |states[0].pcs|)
  {
    if k > 0 {
      RunPays(states, steps, k - 1);
      StepKeepsThreads(states[k - 1], steps[k - 1]);
      StepPays(states[k - 1], steps[k - 1]);
      assert steps[..k][..k - 1] == steps[..k - 1];
    }
  }

  lemma {:induction false} StartWeights(pcs: map<nat, Pc>, ts: set<nat>, n: nat)
    requires ts <= pcs.Keys && forall t :: t in ts ==> pcs[t] == Start
    ensures Weights(pcs, ts, n) == Times(|ts|, Alarm(n) + 12)
    decreases |ts|
  {
    if t :| t in ts {
      WeightsOf(pcs, ts, n, t);
      StartWeights(pcs, ts - {t}, n);
    }
  }

  lemma {:induction false} TimesIsProduct(k: nat, a: nat)
    ensures Times(k, a) == k * a
  {
    if k > 0 { TimesIsProduct(k - 1, a); }
  }

  /** The cancellations, or the wakes without a cause, among the steps. */
  function Cancels(steps: seq<Step>): nat
  {
    if steps == [] then 0 else Cancels(steps[..|steps| - 1]) + if steps[|steps| - 1].Cancel? then 1 else 0
  }

  function Wakes(steps: seq<Step>): nat
  {
    if steps == [] then 0 else Wakes(steps[..|steps| - 1]) + if steps[|steps| - 1].Wake? then 1 else 0
  }

  lemma {:induction false} AllowancesCounted(steps: seq<Step>, n: nat)
    ensures Allowances(steps, n) == Times(Cancels(steps), Announcement(n) + 1) + 6 * Wakes(steps)
  {
    if steps != [] { AllowancesCounted(steps[..|steps| - 1], n); }
  }

  /** How long a run of `n` threads can be. */
  function Longest(n: nat, cancels: nat, wakes: nat): nat
  {
    n * (5 * n + 13) + cancels * (n * (5 * n + 1) + 3) + 6 * wakes
  }

  /** A run takes no more steps than its threads, its cancellations and its wakes without a cause allow,
      however the threads are scheduled and however often opening fails. */
  lemma {:induction false} RunIsBounded(states: seq<State>, steps: seq<Step>)
    requires Run(states, steps)
    ensures |steps| <= Longest(|states[0].pcs|, Cancels(steps), Wakes(steps))
  {
    var s, n, c := states[0], |states[0].pcs|, Cancels(steps);
    RunPays(states, steps, |steps|);
    assert steps[..|steps|] == steps;
    StartPotential(s);
    AllowancesCounted(steps, n);
    TimesIsProduct(n, Alarm(n));
    TimesIsProduct(c, Announcement(n) + 1);
  }

  lemma {:induction false} StartPotential(s: State)
    requires Initial(s)
    ensures Potential(s) == |s.pcs| * (5 * |s.pcs| + 13)
  {
    var n := |s.pcs|;
    StartWeights(s.pcs, s.pcs.Keys, n);
    assert |s.pcs.Keys| == n;
    TimesIsProduct(n, Alarm(n) + 12);
  }

  /** A run that progress cannot continue has every call answered. */
  lemma {:induction false} EndedRunHasReturned(states: seq<State>, steps: seq<Step>)
    requires Run(states, steps) && forall step :: Enabled(states[|steps|], step) ==> !Progress(step)
    ensures forall t :: t in states[|steps|].pcs ==> states[|steps|].pcs[t].Finished?
  {
    RunInv(states, steps, |steps|);
    forall t | t in states[|steps|].pcs
      ensures states[|steps|].pcs[t].Finished?
    {
      if !states[|steps|].pcs[t].Finished? {
        var step := NoDeadlock(states[|steps|], t);
        assert false;
      }
    }
  }

  /** Every run can be brought to its end by progress alone: every call returns. */
  lemma {:induction false} EveryCallReturns(states: seq<State>, steps: seq<Step>)
    returns (more: seq<State>, further: seq<Step>)
    requires Run(states, steps)
    ensures Run(more, further) && steps <= further && states <= more
    ensures forall k :: |steps| <= k < |further| ==> Progress(further[k])
    ensures forall t :: t in more[|further|].pcs ==> more[|further|].pcs[t].Finished?
    decreases Potential(states[|steps|])
  {
    var s := states[|steps|];
    RunInv(states, steps, |steps|);
    RunPays(states, steps, |steps|);
    if t :| t in s.pcs && !s.pcs[t].Finished? {
      var step := NoDeadlock(s, t);
      StepPays(s, step);
      more, further := EveryCallReturns(states + [Apply(s, step)], steps + [step]);
    } else {
      more, further := states, steps;
    }
  }
}
