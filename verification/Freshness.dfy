/** When a look-up in the capability registry sees a change of its sources. Any number of threads look up,
    rebuild, panic while rebuilding, change sources and invalidate. Each of the sources is known by the number
    of its changes; a snapshot, by its directory and by what its build collected of every source. */
module Freshness {

  datatype Option<T> = None | Some(value: T)

  /** The changes of each source. */
  type Versions = seq<nat>

  datatype Snapshot = Snapshot(cwd: string, versions: Versions)

  /** Where a thread stands in its look-up. A build collects from the sources one after the other, each as
      it is at that time. */
  datatype Thread =
    | Idle
    | Loaded(cwd: string, loaded: Snapshot)     // has the snapshot, has not looked at the mark
    | Queued(cwd: string)                       // wants the rebuild lock
    | Building(cwd: string, read: Versions)     // holds the lock, has collected from the first sources
    | Stored(cwd: string, read: Versions)       // has published, has not cleared the mark
    | Answered(cwd: string, versions: Versions)

  datatype State = State(
    sources: Versions, dirty: bool, published: Snapshot, lock: Option<nat>, threads: map<nat, Thread>)

  datatype Step =
    | Change(source: nat)
    | Invalidate
    | Load(t: nat, cwd: string)
    | Test(t: nat)
    | Enter(t: nat)
    | Collect(t: nat)
    | Store(t: nat)
    | Clear(t: nat)
    | Panic(t: nat)

  function At(s: State, t: nat): Thread { if t in s.threads then s.threads[t] else Idle }

  function Goto(s: State, t: nat, thread: Thread): State { s.(threads := s.threads[t := thread]) }

  /** The snapshot in hand serves the directory and nothing is marked. */
  predicate Serves(s: State, snapshot: Snapshot, cwd: string) { !s.dirty && snapshot.cwd == cwd }

  predicate Enabled(s: State, step: Step)
  {
    match step
    case Change(k) => k < |s.sources|
    case Invalidate => true
    case Load(t, _) => At(s, t).Idle? || At(s, t).Answered?
    case Test(t) => At(s, t).Loaded?
    case Enter(t) => At(s, t).Queued? && s.lock == None
    case Collect(t) => At(s, t).Building? && |At(s, t).read| < |s.sources|
    case Store(t) => At(s, t).Building? && |At(s, t).read| == |s.sources|
    case Clear(t) => At(s, t).Stored?
    case Panic(t) => At(s, t).Building?
  }

  function Apply(s: State, step: Step): State
    requires Enabled(s, step)
  {
    match step
    case Change(k) => s.(sources := s.sources[k := s.sources[k] + 1])
    case Invalidate => s.(dirty := true)
    case Load(t, cwd) => Goto(s, t, Loaded(cwd, s.published))
    case Test(t) =>
      var th := At(s, t);
      if Serves(s, th.loaded, th.cwd) then Goto(s, t, Answered(th.cwd, th.loaded.versions))
      else Goto(s, t, Queued(th.cwd))
    case Enter(t) =>
      var cwd := At(s, t).cwd;
      if Serves(s, s.published, cwd) then Goto(s, t, Answered(cwd, s.published.versions))
      else Goto(s, t, Building(cwd, [])).(lock := Some(t))
    case Collect(t) =>
      var th := At(s, t);
      Goto(s, t, Building(th.cwd, th.read + [s.sources[|th.read|]]))
    case Store(t) =>
      var th := At(s, t);
      Goto(s, t, Stored(th.cwd, th.read)).(published := Snapshot(th.cwd, th.read))
    case Clear(t) =>
      var th := At(s, t);
      Goto(s, t, Answered(th.cwd, th.read)).(dirty := false, lock := None)
    case Panic(t) => Goto(s, t, Idle).(lock := None)
  }

  /** Nothing is published yet: the snapshot in place is marked. */
  predicate Initial(s: State)
  {
    s.dirty && s.published == Snapshot("", s.sources) && s.lock == None && s.threads == map[]
  }

  ghost predicate Run(states: seq<State>, steps: seq<Step>)
  {
    |states| == |steps| + 1 && Initial(states[0]) &&
    forall k {:trigger steps[k]} :: 0 <= k < |steps| ==>
      Enabled(states[k], steps[k]) && states[k + 1] == Apply(states[k], steps[k])
  }

  lemma {:induction false} RunStep(states: seq<State>, steps: seq<Step>, k: nat)
    requires Run(states, steps) && k < |steps|
    ensures Enabled(states[k], steps[k]) && states[k + 1] == Apply(states[k], steps[k])
  {
  }

  predicate Builds(th: Thread) { th.Building? || th.Stored? }

  /** What was collected of the first sources is no newer than they are. */
  ghost predicate Within(read: Versions, sources: Versions)
  {
    |read| <= |sources| && forall k :: 0 <= k < |read| ==> read[k] <= sources[k]
  }

  /** One thread at a time builds, and nothing is newer than the sources. */
  ghost predicate Inv(s: State)
  {
    (forall t :: t in s.threads && Builds(s.threads[t]) ==> s.lock == Some(t)) &&
    (forall t :: s.lock == Some(t) ==> Builds(At(s, t))) &&
    (forall t :: t in s.threads && Builds(s.threads[t]) ==> Within(s.threads[t].read, s.sources)) &&
    (forall t :: t in s.threads && s.threads[t].Stored? ==>
       s.published == Snapshot(s.threads[t].cwd, s.threads[t].read)) &&
    Within(s.published.versions, s.sources) && |s.published.versions| == |s.sources|
  }

  lemma {:induction false} StepKeepsInv(s: State, step: Step)
    requires Inv(s) && Enabled(s, step)
    ensures Inv(Apply(s, step))
  {
    forall read: Versions | Within(read, s.sources) ensures Within(read, Apply(s, step).sources) {
    }
  }

  lemma {:induction false} RunInv(states: seq<State>, steps: seq<Step>, k: nat)
    requires Run(states, steps) && k < |states|
    ensures Inv(states[k])
    decreases k
  {
    if k > 0 {
      RunInv(states, steps, k - 1);
      StepKeepsInv(states[k - 1], steps[k - 1]);
    }
  }

  // ---- An undisturbed look-up ----

  /** What a look-up answers that begins now and that nothing disturbs. */
  function Answer(s: State, cwd: string): Versions
  {
    if Serves(s, s.published, cwd) then s.published.versions else s.sources
  }

  function Collects(t: nat, n: nat): seq<Step> { seq(n, k => Collect(t)) }

  function Rebuild(t: nat, n: nat): seq<Step> { [Enter(t)] + (Collects(t, n) + [Store(t), Clear(t)]) }

  /** The steps of such a look-up. */
  function LookUp(s: State, t: nat, cwd: string): seq<Step>
  {
    [Load(t, cwd), Test(t)] + if Serves(s, s.published, cwd) then [] else Rebuild(t, |s.sources|)
  }

  ghost predicate Leads(s: State, steps: seq<Step>, r: State)
    decreases |steps|
  {
    if steps == [] then s == r else Enabled(s, steps[0]) && Leads(Apply(s, steps[0]), steps[1..], r)
  }

  lemma {:induction false} LeadsOn(s: State, a: seq<Step>, m: State, b: seq<Step>, r: State)
    requires Leads(s, a, m) && Leads(m, b, r)
    ensures Leads(s, a + b, r)
    decreases |a|
  {
    if a == [] {
      assert a + b == b;
    } else {
      assert (a + b)[1..] == a[1..] + b;
      LeadsOn(Apply(s, a[0]), a[1..], m, b, r);
    }
  }

  lemma {:induction false} LeadsOne(s: State, step: Step)
    requires Enabled(s, step)
    ensures Leads(s, [step], Apply(s, step))
  {
    assert Leads(Apply(s, step), [], Apply(s, step)) && [step][1..] == [];
  }

  lemma {:induction false} LeadsTwo(s: State, a: Step, b: Step)
    requires Enabled(s, a) && Enabled(Apply(s, a), b)
    ensures Leads(s, [a, b], Apply(Apply(s, a), b))
  {
    LeadsOne(Apply(s, a), b);
    assert [a, b][1..] == [b];
  }

  /** What steps keep, steps in a row keep. */
  lemma {:induction false} LeadsKeepsInv(s: State, steps: seq<Step>, r: State)
    requires Inv(s) && Leads(s, steps, r)
    ensures Inv(r)
    decreases |steps|
  {
    if steps != [] {
      StepKeepsInv(s, steps[0]);
      LeadsKeepsInv(Apply(s, steps[0]), steps[1..], r);
    }
  }

  /** Left alone, a build collects from all sources as they are. */
  lemma {:induction false} CollectsAll(s: State, t: nat, n: nat)
    requires At(s, t).Building? && At(s, t).read <= s.sources && |At(s, t).read| + n == |s.sources|
    ensures Leads(s, Collects(t, n), Goto(s, t, Building(At(s, t).cwd, s.sources)))
    decreases n
  {
    var th := At(s, t);
    if n == 0 {
      assert th.read == s.sources;
      assert Goto(s, t, Building(th.cwd, s.sources)) == s;
    } else {
      var next := Apply(s, Collect(t));
      assert th.read + [s.sources[|th.read|]] == s.sources[..|th.read| + 1];
      CollectsAll(next, t, n - 1);
      assert Goto(next, t, Building(th.cwd, s.sources)) == Goto(s, t, Building(th.cwd, s.sources));
      assert Collects(t, n)[0] == Collect(t) && Collects(t, n)[1..] == Collects(t, n - 1);
    }
  }

  /** With the lock free an undisturbed look-up runs to its end, answers so and leaves the lock free. */
  lemma {:induction false} LookUpAnswers(s: State, t: nat, cwd: string) returns (r: State)
    requires Inv(s) && s.lock == None && (At(s, t).Idle? || At(s, t).Answered?)
    ensures Leads(s, LookUp(s, t, cwd), r) && At(r, t) == Answered(cwd, Answer(s, cwd))
    ensures !r.dirty && r.published == Snapshot(cwd, Answer(s, cwd)) && forall u :: u != t ==> At(r, u) == At(s, u)
    ensures Inv(r) && r.lock == None && r.sources == s.sources
  {
    var tested := Apply(Apply(s, Load(t, cwd)), Test(t));
    LeadsTwo(s, Load(t, cwd), Test(t));
    if Serves(s, s.published, cwd) {
      r := tested;
      assert LookUp(s, t, cwd) == [Load(t, cwd), Test(t)];
    } else {
      r := Rebuilds(tested, t, cwd);
      LeadsOn(s, [Load(t, cwd), Test(t)], tested, Rebuild(t, |s.sources|), r);
    }
    LeadsKeepsInv(s, LookUp(s, t, cwd), r);
  }

  lemma {:induction false} Rebuilds(s: State, t: nat, cwd: string) returns (r: State)
    requires s.lock == None && At(s, t) == Queued(cwd) && !Serves(s, s.published, cwd)
    ensures Leads(s, Rebuild(t, |s.sources|), r) && At(r, t) == Answered(cwd, s.sources)
    ensures !r.dirty && r.published == Snapshot(cwd, s.sources) && forall u :: u != t ==> At(r, u) == At(s, u)
    ensures r.lock == None && r.sources == s.sources
  {
    var n := |s.sources|;
    var entered := Apply(s, Enter(t));
    var collected := Goto(entered, t, Building(cwd, s.sources));
    r := Apply(Apply(collected, Store(t)), Clear(t));
    LeadsOne(s, Enter(t));
    CollectsAll(entered, t, n);
    LeadsTwo(collected, Store(t), Clear(t));
    LeadsOn(entered, Collects(t, n), collected, [Store(t), Clear(t)], r);
    LeadsOn(s, [Enter(t)], entered, Collects(t, n) + [Store(t), Clear(t)], r);
  }

  // ---- A build that others wait for ----

  /** Nobody asks for another directory. */
  ghost predicate AllAsk(s: State, cwd: string)
  {
    forall t :: At(s, t).Loaded? || At(s, t).Queued? ==> At(s, t).cwd == cwd
  }

  /** No invalidation, and no call for another directory. */
  predicate KeepsServing(step: Step, cwd: string) { step != Invalidate && (step.Load? ==> step.cwd == cwd) }

  /** The thread waits for the snapshot, has loaded it or has answered it. */
  ghost predicate GetsIt(th: Thread, snapshot: Snapshot)
  {
    th == Queued(snapshot.cwd) || th == Loaded(snapshot.cwd, snapshot) || th == Answered(snapshot.cwd, snapshot.versions)
  }

  lemma {:induction false} SharedStep(s: State, step: Step, cwd: string)
    requires Inv(s) && s.lock == None && Serves(s, s.published, cwd) && AllAsk(s, cwd)
    requires Enabled(s, step) && KeepsServing(step, cwd)
    ensures var r := Apply(s, step); r.lock == None && r.published == s.published && !r.dirty && AllAsk(r, cwd)
    ensures forall t :: GetsIt(At(s, t), s.published) ==> GetsIt(At(Apply(s, step), t), s.published)
  {
    var r := Apply(s, step);
    forall t
      ensures At(r, t).Loaded? || At(r, t).Queued? ==> At(r, t).cwd == cwd
      ensures GetsIt(At(s, t), s.published) ==> GetsIt(At(r, t), s.published)
    {
      NobodyBuilds(s, t);
    }
  }

  lemma {:induction false} NobodyBuilds(s: State, t: nat)
    requires Inv(s) && s.lock == None
    ensures !Builds(At(s, t))
  {
  }

  /** Once a build is published, nobody builds again before the next invalidation or a call for another
      directory, and every thread that had to wait gets what was built. */
  lemma {:induction false} OneBuildServesAll(s: State, steps: seq<Step>, r: State, cwd: string)
    requires Inv(s) && s.lock == None && Serves(s, s.published, cwd) && AllAsk(s, cwd)
    requires Leads(s, steps, r) && forall step :: step in steps ==> KeepsServing(step, cwd)
    ensures r.published == s.published && !r.dirty && forall t :: !Builds(At(r, t))
    ensures forall t :: GetsIt(At(s, t), s.published) ==> GetsIt(At(r, t), s.published)
    decreases |steps|
  {
    if steps == [] {
      forall t ensures !Builds(At(s, t)) {
        NobodyBuilds(s, t);
      }
    } else {
      var next := Apply(s, steps[0]);
      SharedStep(s, steps[0], cwd);
      StepKeepsInv(s, steps[0]);
      OneBuildServesAll(next, steps[1..], r, cwd);
    }
  }

  // ---- Invalidations that are honoured ----

  /** Some source was collected before its change in `v`. */
  ghost predicate Old(read: Versions, v: Versions)
  {
    exists k :: 0 <= k < |read| && k < |v| && read[k] < v[k]
  }

  /** A build under way has collected from a source that is older than in `v`. */
  ghost predicate CollectedOld(s: State, t: nat, v: Versions) { Builds(At(s, t)) && Old(At(s, t).read, v) }

  /** Sources as of `v` have been announced, and no build that is going to clear the mark has missed them. */
  ghost predicate Honours(s: State, v: Versions)
  {
    |v| == |s.sources| && !Old(s.sources, v) && (s.dirty || !Old(s.published.versions, v)) &&
    forall t :: !CollectedOld(s, t, v)
  }

  lemma {:induction false} CollectIsNotOld(s: State, t: nat, v: Versions)
    requires Enabled(s, Collect(t)) && !Old(s.sources, v) && !Old(At(s, t).read, v)
    ensures !Old(At(Apply(s, Collect(t)), t).read, v)
  {
    var th := At(s, t);
    forall k | 0 <= k < |th.read| + 1 && k < |v|
      ensures (th.read + [s.sources[|th.read|]])[k] >= v[k]
    {
    }
  }

  lemma {:induction false} ChangeIsNotOld(s: State, k: nat, v: Versions)
    requires Enabled(s, Change(k)) && !Old(s.sources, v)
    ensures !Old(Apply(s, Change(k)).sources, v)
  {
    forall j | 0 <= j < |s.sources| && j < |v|
      ensures Apply(s, Change(k)).sources[j] >= v[j]
    {
    }
  }

  lemma {:induction false} StepHonours(s: State, step: Step, v: Versions)
    requires Inv(s) && Enabled(s, step) && Honours(s, v)
    ensures Honours(Apply(s, step), v)
  {
    var r := Apply(s, step);
    if step.Change? { ChangeIsNotOld(s, step.source, v); }
    if step.Collect? || step.Store? || step.Clear? { assert !CollectedOld(s, step.t, v); }
    if step.Collect? { CollectIsNotOld(s, step.t, v); }
    forall t
      ensures !CollectedOld(r, t, v)
    {
      assert !CollectedOld(s, t, v);
    }
  }

  lemma {:induction false} NotOlderThanItself(v: Versions)
    ensures !Old(v, v)
  {
  }

  /** An invalidation is honoured for good when no build under way has collected before the changes it
      announces. */
  lemma {:induction false} HonouredForGood(states: seq<State>, steps: seq<Step>, i: nat, k: nat)
    requires Run(states, steps) && i < k < |states| && steps[i] == Invalidate
    requires forall t :: !CollectedOld(states[i], t, states[i].sources)
    ensures Honours(states[k], states[i].sources)
    decreases k
  {
    RunInv(states, steps, k - 1);
    var v := states[i].sources;
    if k == i + 1 {
      NotOlderThanItself(v);
      forall t
        ensures !CollectedOld(states[k], t, v)
      {
        assert At(states[k], t) == At(states[i], t) && !CollectedOld(states[i], t, v);
      }
    } else {
      HonouredForGood(states, steps, i, k - 1);
      StepHonours(states[k - 1], steps[k - 1], v);
    }
  }

  // ---- The next look-up, exactly ----

  predicate Quiet(step: Step) { step != Invalidate && !step.Enter? && !step.Panic? }

  /** The build under way goes on from what it has read, or has ended and cleared the mark. */
  ghost predicate Passing(s: State, t: nat, cwd: string, read: Versions)
  {
    if s.lock == Some(t) then
      Builds(At(s, t)) && At(s, t).cwd == cwd && read <= At(s, t).read
    else s.lock == None && !s.dirty && s.published.cwd == cwd && read <= s.published.versions
  }

  lemma {:induction false} StepPasses(s: State, step: Step, t: nat, cwd: string, read: Versions)
    requires Inv(s) && Enabled(s, step) && Quiet(step) && Passing(s, t, cwd, read)
    ensures Passing(Apply(s, step), t, cwd, read)
  {
    assert s.lock == None ==> forall u :: u in s.threads ==> !Builds(s.threads[u]);
  }

  lemma {:induction false} BuildPasses(states: seq<State>, steps: seq<Step>, i: nat, k: nat, t: nat, cwd: string,
                                       read: Versions)
    requires Run(states, steps) && i <= k < |states| && Passing(states[i], t, cwd, read)
    requires forall j :: i <= j < k ==> Quiet(steps[j])
    ensures Passing(states[k], t, cwd, read)
    decreases k
  {
    if i < k {
      BuildPasses(states, steps, i, k - 1, t, cwd, read);
      RunInv(states, steps, k - 1);
      var s, step := states[k - 1], steps[k - 1];
      RunStep(states, steps, k - 1);
      assert Quiet(step);
      StepPasses(s, step, t, cwd, read);
    }
  }

  lemma {:induction false} OldGoesOn(read: Versions, more: Versions, v: Versions)
    requires Old(read, v) && read <= more
    ensures Old(more, v)
  {
    var k :| 0 <= k < |read| && k < |v| && read[k] < v[k];
    assert more[k] == read[k];
  }

  /** A look-up that comes after an invalidation, once the build under way has ended well, sees all the
      announced sources if and only if no build of its directory had collected, when the invalidation came,
      from one of them as it was before. */
  lemma {:induction false} NextLookUpIsFreshIff(states: seq<State>, steps: seq<Step>, i: nat, k: nat, cwd: string)
    requires Run(states, steps) && i < k < |states| && steps[i] == Invalidate && states[k].lock == None
    requires forall j :: i < j < k ==> Quiet(steps[j])
    ensures !Old(Answer(states[k], cwd), states[i].sources) <==>
            !exists t :: CollectedOld(states[i], t, states[i].sources) && At(states[i], t).cwd == cwd
  {
    var v := states[i].sources;
    if t :| CollectedOld(states[i], t, v) {
      MissedIsAnswered(states, steps, i, k, t);
      SourcesGrow(states, steps, i, k);
      RunInv(states, steps, i);
      assert forall u :: CollectedOld(states[i], u, v) ==> u == t by {
        assert forall u :: CollectedOld(states[i], u, v) ==> Builds(states[i].threads[u]);
      }
    } else {
      HonouredForGood(states, steps, i, k);
    }
  }

  /** What a build has missed when it ends is what a look-up in its directory answers next. */
  lemma {:induction false} MissedIsAnswered(states: seq<State>, steps: seq<Step>, i: nat, k: nat, t: nat)
    requires Run(states, steps) && i < k < |states| && steps[i] == Invalidate && states[k].lock == None
    requires forall j :: i < j < k ==> Quiet(steps[j])
    requires CollectedOld(states[i], t, states[i].sources)
    ensures !states[k].dirty && states[k].published.cwd == At(states[i], t).cwd
    ensures Old(states[k].published.versions, states[i].sources)
  {
    RunInv(states, steps, i);
    var th := At(states[i], t);
    assert Builds(states[i].threads[t]) && states[i].lock == Some(t);
    assert At(states[i + 1], t) == th && states[i + 1].lock == Some(t);
    BuildPasses(states, steps, i + 1, k, t, th.cwd, th.read);
    OldGoesOn(th.read, states[k].published.versions, states[i].sources);
  }

  lemma {:induction false} SourcesGrow(states: seq<State>, steps: seq<Step>, i: nat, k: nat)
    requires Run(states, steps) && i <= k < |states|
    ensures |states[k].sources| == |states[i].sources| && !Old(states[k].sources, states[i].sources)
    decreases k
  {
    if i < k {
      SourcesGrow(states, steps, i, k - 1);
      RunStep(states, steps, k - 1);
      if steps[k - 1].Change? { ChangeIsNotOld(states[k - 1], steps[k - 1].source, states[i].sources); }
    } else {
      NotOlderThanItself(states[i].sources);
    }
  }

  // ---- Look-ups among others ----

  /** Nothing is published while the thread has loaded the snapshot and not tested the mark, and it begins no
      further look-up. */
  ghost predicate Undisturbed(states: seq<State>, steps: seq<Step>, a: nat, k: nat, t: nat)
    requires Run(states, steps)
  {
    forall j :: a < j < k && j < |steps| ==>
      (steps[j].Load? ==> steps[j].t != t) && (steps[j].Store? ==> !At(states[j], t).Loaded?)
  }

  ghost predicate Good(s: State, t: nat, v: Versions)
  {
    match At(s, t)
    case Loaded(_, loaded) => loaded == s.published
    case Answered(_, versions) => !Old(versions, v)
    case _ => true
  }

  lemma {:induction false} StepStaysGood(s: State, step: Step, t: nat, v: Versions)
    requires Inv(s) && Honours(s, v) && Enabled(s, step) && Good(s, t, v)
    requires (step.Load? ==> step.t != t) && (step.Store? ==> !At(s, t).Loaded?)
    ensures Good(Apply(s, step), t, v)
  {
    assert !CollectedOld(s, t, v);
  }

  lemma {:induction false} UndisturbedFront(states: seq<State>, steps: seq<Step>, a: nat, k: nat, t: nat)
    requires Run(states, steps) && Undisturbed(states, steps, a, k, t) && a + 1 < k <= |steps|
    ensures Undisturbed(states, steps, a, k - 1, t)
    ensures (steps[k - 1].Load? ==> steps[k - 1].t != t) && (steps[k - 1].Store? ==> !At(states[k - 1], t).Loaded?)
  {
  }

  /** After an invalidation that is honoured every look-up that begins answers the announced sources or newer
      ones, whatever other threads do, unless a build publishes between its load and its test. */
  lemma {:induction false} LookUpIsFresh(states: seq<State>, steps: seq<Step>, i: nat, a: nat, k: nat, t: nat)
    requires Run(states, steps) && i < a < k < |states| && steps[i] == Invalidate
    requires forall u :: !CollectedOld(states[i], u, states[i].sources)
    requires steps[a].Load? && steps[a].t == t && Undisturbed(states, steps, a, k, t)
    ensures Good(states[k], t, states[i].sources)
    decreases k
  {
    RunStep(states, steps, k - 1);
    if k > a + 1 {
      UndisturbedFront(states, steps, a, k, t);
      LookUpIsFresh(states, steps, i, a, k - 1, t);
      RunInv(states, steps, k - 1);
      HonouredForGood(states, steps, i, k - 1);
      StepStaysGood(states[k - 1], steps[k - 1], t, states[i].sources);
    } else {
      LoadIsGood(states[a], t, steps[a].cwd, states[i].sources);
    }
  }

  lemma {:induction false} LoadIsGood(s: State, t: nat, cwd: string, v: Versions)
    requires Enabled(s, Load(t, cwd))
    ensures Good(Apply(s, Load(t, cwd)), t, v)
  {
  }

  // ---- Stale runs ----

  /** A source changes, and the change is announced. */
  lemma {:induction false} Announced(s: State, k: nat) returns (m: State)
    requires Inv(s) && k < |s.sources|
    ensures Leads(s, [Change(k), Invalidate], m) && Inv(m) && |m.sources| == |s.sources| && Old(s.sources, m.sources)
    ensures m.dirty && m.threads == s.threads && m.lock == s.lock && m.published == s.published
  {
    m := Apply(Apply(s, Change(k)), Invalidate);
    LeadsTwo(s, Change(k), Invalidate);
    LeadsKeepsInv(s, [Change(k), Invalidate], m);
    assert s.sources[k] < m.sources[k];
  }

  /** A change announced between its collection and the end of the build is lost: the next look-up is
      answered the sources of before. */
  lemma {:induction false} InvalidationIsLost(s: State, t: nat, cwd: string, k: nat) returns (r: State)
    requires Inv(s) && At(s, t) == Building(cwd, s.sources) && k < |s.sources|
    ensures Leads(s, [Change(k), Invalidate] + [Store(t), Clear(t)], r)
    ensures r.lock == None && Answer(r, cwd) == s.sources && Old(s.sources, r.sources)
  {
    var announced := Announced(s, k);
    r := Apply(Apply(announced, Store(t)), Clear(t));
    LeadsTwo(announced, Store(t), Clear(t));
    LeadsOn(s, [Change(k), Invalidate], announced, [Store(t), Clear(t)], r);
  }

  /** The first look-up of a process gets that far, so there is such a run. */
  lemma {:induction false} FirstBuildCollects(s: State, t: nat, cwd: string) returns (r: State)
    requires Initial(s)
    ensures Leads(s, [Load(t, cwd), Test(t)] + ([Enter(t)] + Collects(t, |s.sources|)), r)
    ensures Inv(r) && At(r, t) == Building(cwd, r.sources) && r.sources == s.sources
  {
    var n := |s.sources|;
    var queued := Apply(Apply(s, Load(t, cwd)), Test(t));
    LeadsTwo(s, Load(t, cwd), Test(t));
    var entered := Apply(queued, Enter(t));
    LeadsOne(queued, Enter(t));
    CollectsAll(entered, t, n);
    r := Goto(entered, t, Building(cwd, s.sources));
    LeadsOn(queued, [Enter(t)], entered, Collects(t, n), r);
    LeadsOn(s, [Load(t, cwd), Test(t)], queued, [Enter(t)] + Collects(t, n), r);
    LeadsKeepsInv(s, [Load(t, cwd), Test(t)] + ([Enter(t)] + Collects(t, n)), r);
  }

  /** A look-up is answered old sources, too, that loads the snapshot and tests the mark only after another
      thread has rebuilt, published and cleared the mark, though both began after the invalidation and no
      build was under way at the time. */
  lemma {:induction false} LookUpIsRaced(s: State, t: nat, u: nat, cwd: string) returns (r: State)
    requires Inv(s) && s.lock == None && s.dirty && s.published.cwd == cwd && Old(s.published.versions, s.sources)
    requires t != u && (At(s, t).Idle? || At(s, t).Answered?) && At(s, u).Idle?
    ensures Leads(s, [Load(u, cwd)] + (LookUp(s, t, cwd) + [Test(u)]), r)
    ensures At(r, u) == Answered(cwd, s.published.versions)
    ensures r.published.versions == r.sources == s.sources
  {
    var loaded := Apply(s, Load(u, cwd));
    LeadsOne(s, Load(u, cwd));
    StepKeepsInv(s, Load(u, cwd));
    var built := LookUpAnswers(loaded, t, cwd);
    r := Apply(built, Test(u));
    LeadsOne(built, Test(u));
    LeadsOn(loaded, LookUp(loaded, t, cwd), built, [Test(u)], r);
    LeadsOn(s, [Load(u, cwd)], loaded, LookUp(loaded, t, cwd) + [Test(u)], r);
  }

  /** The first look-up of a process, then a change and its invalidation, lead there; so there is a run that
      ends with a look-up answered sources older than the ones announced before it began. */
  lemma {:induction false} RacedRun(s: State, t: nat, u: nat, cwd: string, k: nat) returns (m: State, r: State)
    requires Initial(s) && t != u && k < |s.sources|
    ensures Leads(s, LookUp(s, t, cwd) + [Change(k), Invalidate], m) && m.lock == None && At(m, u).Idle?
    ensures Leads(m, [Load(u, cwd)] + (LookUp(m, t, cwd) + [Test(u)]), r)
    ensures At(r, u).Answered? && At(r, u).cwd == cwd && Old(At(r, u).versions, m.sources)
  {
    var first := LookUpAnswers(s, t, cwd);
    assert At(first, u) == At(s, u) == Idle;
    m := Announced(first, k);
    LeadsOn(s, LookUp(s, t, cwd), first, [Change(k), Invalidate], m);
    r := LookUpIsRaced(m, t, u, cwd);
  }
}
