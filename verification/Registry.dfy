/** The capability registry: candidates are checked one after the other, an id goes to the first of them
    that is acceptable, and the rest is told in diagnostics; then the audit of what the registry lets be executed. */
module Registry {
  import opened Text
  import ChatTree
  import Lexicographic

  datatype Option<T> = None | Some(value: T)

  datatype Health = Healthy | Degraded | Unavailable | Disabled
  datatype Target = Nowhere | Reaches(name: string)

  datatype Binding = Binding(input: string, output: string, handler: string,
                             requested: set<string>, effective: set<string>)
  {
    predicate Coherent() { !Blank(input) && !Blank(output) && !Blank(handler) && effective <= requested }
  }

  datatype Descriptor = Descriptor(id: string, source: string, operations: seq<string>, provider: string,
                                   digest: string, health: Health, visible: bool, executable: bool,
                                   action: Option<string>, target: Target, binding: Binding, generation: nat,
                                   checkedAt: nat, evidence: string)
  {
    predicate Runs() { health == Healthy || health == Degraded }

    function Closed(): Descriptor { this.(executable := false, action := None) }

    /** Takes the surface from what cannot be executed; the three reasons follow one another. */
    function Normalized(): Descriptor
    {
      var a := if !Runs() then Closed() else this;
      var b := if a.executable && (a.action.None? || a.action.value == "") then a.Closed() else a;
      if b.executable && !b.binding.Coherent() then b.Closed() else b
    }

    /** What has no health check of its own is checked by the build. */
    function Stamped(build: nat): Descriptor
    {
      var d := this.(generation := build);
      if d.checkedAt == 0 then
        d.(checkedAt := build, evidence := "registry:generation-" + ChatTree.Decimal(build) + ":" + id + ":health")
      else d
    }

    predicate IsValid()
    {
      id != "" && (forall k :: 0 <= k < |id| ==> IdCharacter(id[k])) && !Blank(provider) && !Blank(digest) &&
      !Blank(evidence) && (executable ==> binding.Coherent() && Runs())
    }

    /** It declares a surface without a coherent handler or a health that lets it be executed. */
    predicate Pretends() { executable && (!binding.Coherent() || !Runs()) }

    function Prepared(build: nat): Descriptor { Stamped(build).Normalized() }

    predicate Passes(build: nat) { !Pretends() && Prepared(build).IsValid() }
  }

  predicate IdCharacter(c: char)
  {
    'a' <= c <= 'z' || 'A' <= c <= 'Z' || '0' <= c <= '9' || c == '/' || c == ':' || c == '-' || c == '_' || c == '.'
  }

  /** What the message of a diagnostic says. */
  datatype Reason = PretendsToRun | Malformed | Duplicate
  datatype Diagnostic = Diagnostic(id: string, winner: string, rejected: string, reason: Reason)

  datatype Snapshot = Snapshot(generation: nat, cwd: string, descriptors: seq<Descriptor>,
                               diagnostics: seq<Diagnostic>, byId: map<string, nat>)
  {
    function Get(id: string): Option<Descriptor>
    {
      if id in byId && byId[id] < |descriptors| then Some(descriptors[byId[id]]) else None
    }

    /** The index names every descriptor by its id and nothing else. */
    ghost predicate Indexed()
    {
      (forall id :: id in byId ==> byId[id] < |descriptors| && descriptors[byId[id]].id == id) &&
      (forall m :: 0 <= m < |descriptors| ==> descriptors[m].id in byId && byId[descriptors[m].id] == m)
    }
  }

  // ---- What a build accepts and what it rejects ----

  /** Why a candidate is rejected by itself, or nothing. */
  type Judge = Descriptor -> Option<Reason>

  function Verdict(build: nat): Judge
  {
    (d: Descriptor) =>
      if d.Pretends() then Some(PretendsToRun) else if !d.Prepared(build).IsValid() then Some(Malformed) else None
  }

  /** The first of the first `n` candidates that is acceptable and has the id; `n` when there is none. */
  function First(all: seq<Descriptor>, judge: Judge, id: string, n: nat): (k: nat)
    requires n <= |all|
    ensures k <= n && (k < n ==> judge(all[k]).None? && all[k].id == id)
    ensures forall j :: 0 <= j < k ==> !(judge(all[j]).None? && all[j].id == id)
  {
    if n == 0 then 0
    else
      var k := First(all, judge, id, n - 1);
      if k < n - 1 then k else if judge(all[n - 1]).None? && all[n - 1].id == id then n - 1 else n
  }

  predicate Accepts(all: seq<Descriptor>, judge: Judge, k: nat)
    requires k < |all|
  {
    judge(all[k]).None? && First(all, judge, all[k].id, k) == k
  }

  function Why(all: seq<Descriptor>, judge: Judge, k: nat): Diagnostic
    requires k < |all| && !Accepts(all, judge, k)
  {
    var d := all[k];
    match judge(d)
    case Some(reason) => Diagnostic(d.id, "", d.source, reason)
    case None => Diagnostic(d.id, all[First(all, judge, d.id, k)].source, d.source, Duplicate)
  }

  /** The accepted ones of the first `n` candidates, prepared, in order. */
  function Accepted(all: seq<Descriptor>, judge: Judge, build: nat, n: nat): seq<Descriptor>
    requires n <= |all|
  {
    if n == 0 then []
    else Accepted(all, judge, build, n - 1) + if Accepts(all, judge, n - 1) then [all[n - 1].Prepared(build)] else []
  }

  function RejectedAt(all: seq<Descriptor>, judge: Judge, k: nat): seq<Diagnostic>
    requires k < |all|
  {
    if Accepts(all, judge, k) then [] else [Why(all, judge, k)]
  }

  /** One diagnostic for each of the others, in order. */
  function Rejected(all: seq<Descriptor>, judge: Judge, n: nat): seq<Diagnostic>
    requires n <= |all|
  {
    if n == 0 then []
    else Rejected(all, judge, n - 1) + RejectedAt(all, judge, n - 1)
  }

  /** A snapshot of the first `k` candidates. */
  ghost predicate BuiltBy(s: Snapshot, judge: Judge, all: seq<Descriptor>, k: nat)
    requires k <= |all|
  {
    s.Indexed() && s.descriptors == Accepted(all, judge, s.generation, k) && s.diagnostics == Rejected(all, judge, k) &&
    (forall id :: id in s.byId <==> First(all, judge, id, k) < k) &&
    (forall id :: id in s.byId ==> s.descriptors[s.byId[id]] == all[First(all, judge, id, k)].Prepared(s.generation))
  }

  ghost predicate BuiltFrom(s: Snapshot, all: seq<Descriptor>) { BuiltBy(s, Verdict(s.generation), all, |all|) }

  lemma {:induction false} FirstMore(all: seq<Descriptor>, judge: Judge, id: string, k: nat)
    requires k < |all|
    ensures First(all, judge, id, k + 1) ==
            if First(all, judge, id, k) < k then First(all, judge, id, k)
            else if judge(all[k]).None? && all[k].id == id then k else k + 1
  {
  }

  lemma {:induction false} RejectingStep(s: Snapshot, judge: Judge, all: seq<Descriptor>, k: nat)
    requires k < |all| && BuiltBy(s, judge, all, k) && !Accepts(all, judge, k)
    ensures BuiltBy(s.(diagnostics := s.diagnostics + [Why(all, judge, k)]), judge, all, k + 1)
  {
    RejectedMore(all, judge, k);
    AcceptedMore(all, judge, s.generation, k);
    NobodyFirst(all, judge, k);
  }

  lemma {:induction false} RejectedMore(all: seq<Descriptor>, judge: Judge, k: nat)
    requires k < |all|
    ensures Rejected(all, judge, k + 1) == Rejected(all, judge, k) + RejectedAt(all, judge, k)
  {
  }

  lemma {:induction false} AcceptedMore(all: seq<Descriptor>, judge: Judge, build: nat, k: nat)
    requires k < |all|
    ensures Accepted(all, judge, build, k + 1) ==
            Accepted(all, judge, build, k) + if Accepts(all, judge, k) then [all[k].Prepared(build)] else []
  {
  }

  lemma {:induction false} NobodyFirst(all: seq<Descriptor>, judge: Judge, k: nat)
    requires k < |all| && !Accepts(all, judge, k)
    ensures forall id :: First(all, judge, id, k + 1) ==
              if First(all, judge, id, k) < k then First(all, judge, id, k) else k + 1
  {
    forall id
      ensures First(all, judge, id, k + 1) == if First(all, judge, id, k) < k then First(all, judge, id, k) else k + 1
    {
      FirstMore(all, judge, id, k);
    }
  }

  lemma {:induction false} PreparedKeepsNames(d: Descriptor, build: nat)
    ensures d.Prepared(build).id == d.id && d.Prepared(build).source == d.source
    ensures d.Prepared(build).generation == build && d.Prepared(build).visible == d.visible
    ensures d.Prepared(build).operations == d.operations && d.Prepared(build).target == d.target
  {
  }

  lemma {:induction false} IndexedMore(s: Snapshot, d: Descriptor)
    requires s.Indexed() && d.id !in s.byId
    ensures s.(descriptors := s.descriptors + [d], byId := s.byId[d.id := |s.descriptors|]).Indexed()
  {
  }

  lemma {:induction false} AcceptingStep(s: Snapshot, judge: Judge, all: seq<Descriptor>, k: nat, d: Descriptor)
    requires k < |all| && BuiltBy(s, judge, all, k) && Accepts(all, judge, k) && d == all[k].Prepared(s.generation)
    ensures BuiltBy(s.(descriptors := s.descriptors + [d], byId := s.byId[all[k].id := |s.descriptors|]),
                    judge, all, k + 1)
  {
    var id := all[k].id;
    PreparedKeepsNames(all[k], s.generation);
    IndexedMore(s, d);
    forall other
      ensures First(all, judge, other, k + 1) ==
              if other in s.byId then First(all, judge, other, k) else if other == id then k else k + 1
    {
      FirstMore(all, judge, other, k);
    }
  }

  method Build(cwd: string, build: nat, all: seq<Descriptor>) returns (s: Snapshot)
    ensures s.generation == build && s.cwd == cwd && BuiltFrom(s, all)
    ensures forall i, j :: 0 <= i < j < |s.descriptors| ==> s.descriptors[i].id != s.descriptors[j].id
    ensures |s.descriptors| + |s.diagnostics| == |all| && Holds(s, all)
  {
    s := Snapshot(build, cwd, [], [], map[]);
    for k := 0 to |all|
      invariant s.generation == build && s.cwd == cwd && BuiltBy(s, Verdict(build), all, k)
    {
      s := Step(s, all, k);
    }
    forall i, j | 0 <= i < j < |s.descriptors|
      ensures s.descriptors[i].id != s.descriptors[j].id
    {
      PublishedOnce(s, i, j);
    }
    AsManyAnswers(all, Verdict(build), build, |all|);
    BuiltHolds(s, all);
  }

  /** One candidate: rejected with its reason, or accepted under its id. */
  method Step(s: Snapshot, all: seq<Descriptor>, k: nat) returns (r: Snapshot)
    requires k < |all| && BuiltBy(s, Verdict(s.generation), all, k)
    ensures r.generation == s.generation && r.cwd == s.cwd && BuiltBy(r, Verdict(s.generation), all, k + 1)
  {
    var d := all[k];
    ghost var judge := Verdict(s.generation);
    if d.Pretends() {
      RejectingStep(s, judge, all, k);
      return s.(diagnostics := s.diagnostics + [Diagnostic(d.id, "", d.source, PretendsToRun)]);
    }
    var prepared := d.Stamped(s.generation).Normalized();
    if !prepared.IsValid() {
      RejectingStep(s, judge, all, k);
      return s.(diagnostics := s.diagnostics + [Diagnostic(d.id, "", d.source, Malformed)]);
    }
    if d.id in s.byId {
      var winner := s.descriptors[s.byId[d.id]];
      PreparedKeepsNames(all[First(all, judge, d.id, k)], s.generation);
      RejectingStep(s, judge, all, k);
      return s.(diagnostics := s.diagnostics + [Diagnostic(d.id, winner.source, d.source, Duplicate)]);
    }
    AcceptingStep(s, judge, all, k, prepared);
    r := s.(descriptors := s.descriptors + [prepared], byId := s.byId[d.id := |s.descriptors|]);
  }

  // ---- What a snapshot answers ----

  /** Looking through all descriptors. */
  function Search(all: seq<Descriptor>, id: string): Option<Descriptor>
  {
    if all == [] then None else if all[0].id == id then Some(all[0]) else Search(all[1..], id)
  }

  lemma {:induction false} SearchFinds(all: seq<Descriptor>, id: string)
    ensures Search(all, id).None? <==> forall k :: 0 <= k < |all| ==> all[k].id != id
    ensures Search(all, id).Some? ==> Search(all, id).value in all && Search(all, id).value.id == id
  {
    if all != [] {
      SearchFinds(all[1..], id);
      assert forall k :: 1 <= k < |all| ==> all[k] == all[1..][k - 1];
    }
  }

  /** The index answers what a look through all descriptors would. */
  lemma {:induction false} GetIsSearch(s: Snapshot, id: string)
    requires s.Indexed()
    ensures s.Get(id) == Search(s.descriptors, id)
  {
    SearchFinds(s.descriptors, id);
  }

  lemma {:induction false} PublishedOnce(s: Snapshot, i: nat, j: nat)
    requires s.Indexed() && i < j < |s.descriptors|
    ensures s.descriptors[i].id != s.descriptors[j].id
  {
    assert s.byId[s.descriptors[i].id] == i && s.byId[s.descriptors[j].id] == j;
  }

  /** An id is answered by the first acceptable candidate that has it, and by nothing when there is none. */
  lemma {:induction false} FirstAcceptableWins(s: Snapshot, all: seq<Descriptor>, id: string)
    requires BuiltFrom(s, all)
    ensures var k := First(all, Verdict(s.generation), id, |all|);
            s.Get(id) == if k < |all| then Some(all[k].Prepared(s.generation)) else None
  {
    assert id in s.byId <==> First(all, Verdict(s.generation), id, |all|) < |all|;
  }

  /** There are as many acceptances and diagnostics as candidates. */
  lemma {:induction false} AsManyAnswers(all: seq<Descriptor>, judge: Judge, build: nat, n: nat)
    requires n <= |all|
    ensures |Accepted(all, judge, build, n)| + |Rejected(all, judge, n)| == n
  {
    if n > 0 { AsManyAnswers(all, judge, build, n - 1); }
  }

  /** Every candidate is told of: accepted, or in a diagnostic. */
  lemma {:induction false} CandidateIsTold(all: seq<Descriptor>, judge: Judge, build: nat, n: nat, k: nat)
    requires k < n <= |all|
    ensures Accepts(all, judge, k) ==> all[k].Prepared(build) in Accepted(all, judge, build, n)
    ensures !Accepts(all, judge, k) ==> Why(all, judge, k) in Rejected(all, judge, n)
  {
    if k < n - 1 { CandidateIsTold(all, judge, build, n - 1, k); }
  }

  // ---- What is acceptable, and what an accepted descriptor offers ----

  lemma {:induction false} StampIsEvidence(build: nat, id: string)
    ensures !Blank("registry:generation-" + ChatTree.Decimal(build) + ":" + id + ":health")
  {
    var s := "registry:generation-" + ChatTree.Decimal(build) + ":" + id + ":health";
    assert s[0] == 'r';
  }

  /** The conditions of acceptance on the candidate as it came: the stamp never fails it, and the surface
      that normalizing takes away is the one of a descriptor without an action. */
  lemma {:induction false} PassesMeans(d: Descriptor, build: nat)
    ensures d.Passes(build) <==>
              d.id != "" && (forall k :: 0 <= k < |d.id| ==> IdCharacter(d.id[k])) && !Blank(d.provider) &&
              !Blank(d.digest) && (d.checkedAt == 0 || !Blank(d.evidence)) &&
              (d.executable ==> d.binding.Coherent() && d.Runs())
  {
    StampIsEvidence(build, d.id);
    NormalizedKeeps(d.Stamped(build));
  }

  lemma {:induction false} NormalizedKeeps(d: Descriptor)
    ensures var r := d.Normalized();
            r.id == d.id && r.provider == d.provider && r.digest == d.digest && r.evidence == d.evidence &&
            r.binding == d.binding && r.health == d.health
    ensures d.Normalized().executable <==>
              d.executable && d.Runs() && d.binding.Coherent() && d.action.Some? && d.action.value != ""
    ensures d.Normalized().executable ==> d.Normalized().action == d.action
  {
  }

  /** What is accepted and executable is bound, healthy, checked and has an action. */
  lemma {:induction false} AcceptedSurface(d: Descriptor, build: nat)
    requires d.Passes(build) && d.Prepared(build).executable
    ensures var r := d.Prepared(build);
            r.binding.Coherent() && r.Runs() && !Blank(r.evidence) && r.generation == build &&
            r.action.Some? && r.action.value != "" && r.action == d.action
  {
    NormalizedKeeps(d.Stamped(build));
    PreparedKeepsNames(d, build);
  }

  // ---- A build in the fields of its candidates ----

  ghost predicate Says(text: string) { exists k :: 0 <= k < |text| && !Whitespace(text[k]) }

  /** Schemas and handler are named, and no grant is in effect that was not requested. */
  ghost predicate Bound(b: Binding)
  {
    Says(b.input) && Says(b.output) && Says(b.handler) && forall g :: g in b.effective ==> g in b.requested
  }

  ghost predicate Fit(d: Descriptor) { d.health != Unavailable && d.health != Disabled }

  /** The characters of an id by their codes in ASCII: `-` to `:` in a row, letters and the underscore. */
  predicate IdCode(n: int) { 0x2D <= n <= 0x3A || 0x41 <= n <= 0x5A || n == 0x5F || 0x61 <= n <= 0x7A }

  /** What makes a candidate acceptable by itself. */
  ghost predicate Acceptable(d: Descriptor)
  {
    d.id != "" && (forall c :: c in d.id ==> IdCode(c as int)) && Says(d.provider) && Says(d.digest) &&
    (d.checkedAt == 0 || Says(d.evidence)) && (d.executable ==> Bound(d.binding) && Fit(d))
  }

  /** The candidate as it is published by the build: stamped, checked by the build if by nobody before, and
      without a surface unless that is healthy, bound and has an action. */
  ghost function AsPublished(d: Descriptor, build: nat): Descriptor
  {
    var surface := d.executable && Fit(d) && Bound(d.binding) && d.action.Some? && d.action.value != "";
    Descriptor(
      d.id, d.source, d.operations, d.provider, d.digest, d.health, d.visible, surface,
      if Fit(d) && (d.executable ==> surface) then d.action else None, d.target, d.binding, build,
      if d.checkedAt == 0 then build else d.checkedAt,
      if d.checkedAt == 0 then "registry:generation-" + ChatTree.Decimal(build) + ":" + d.id + ":health" else d.evidence)
  }

  lemma {:induction false} BlankSaysNothing(text: string)
    ensures Blank(text) <==> !Says(text)
  {
  }

  lemma {:induction false} CoherentIsBound(b: Binding)
    ensures b.Coherent() <==> Bound(b)
  {
    BlankSaysNothing(b.input);
    BlankSaysNothing(b.output);
    BlankSaysNothing(b.handler);
  }

  lemma {:induction false} IdIsCoded(id: string)
    ensures (forall k :: 0 <= k < |id| ==> IdCharacter(id[k])) <==> forall c :: c in id ==> IdCode(c as int)
  {
    forall c: char ensures IdCharacter(c) <==> IdCode(c as int) {
    }
    if c :| c in id && !IdCode(c as int) {
      var k :| 0 <= k < |id| && id[k] == c;
      assert !IdCharacter(id[k]);
    }
    if k :| 0 <= k < |id| && !IdCharacter(id[k]) { assert id[k] in id && !IdCode(id[k] as int); }
  }

  lemma {:induction false} PreparedIs(d: Descriptor, build: nat)
    ensures d.Prepared(build) == AsPublished(d, build)
  {
    CoherentIsBound(d.binding);
  }

  lemma {:induction false} PassesIsAcceptable(d: Descriptor, build: nat)
    ensures Verdict(build)(d).None? <==> Acceptable(d)
    ensures Verdict(build)(d) == Some(PretendsToRun) <==> d.executable && !(Bound(d.binding) && Fit(d))
  {
    PassesMeans(d, build);
    CoherentIsBound(d.binding);
    IdIsCoded(d.id);
    BlankSaysNothing(d.provider);
    BlankSaysNothing(d.digest);
    BlankSaysNothing(d.evidence);
  }

  /** The candidate is the first acceptable one with its id. */
  ghost predicate Wins(all: seq<Descriptor>, k: int)
  {
    0 <= k < |all| && Acceptable(all[k]) && forall j :: 0 <= j < k && all[j].id == all[k].id ==> !Acceptable(all[j])
  }

  /** The diagnostic of a candidate that does not win. */
  ghost predicate Explains(diagnostic: Diagnostic, all: seq<Descriptor>, k: nat)
    requires k < |all|
  {
    var d := all[k];
    diagnostic.id == d.id && diagnostic.rejected == d.source &&
    (diagnostic.reason == PretendsToRun <==> d.executable && !(Bound(d.binding) && Fit(d))) &&
    (diagnostic.reason == Duplicate <==> Acceptable(d)) &&
    (Acceptable(d) ==> exists j :: 0 <= j < k && Wins(all, j) && all[j].id == d.id && diagnostic.winner == all[j].source) &&
    (!Acceptable(d) ==> diagnostic.winner == "")
  }

  /** What a snapshot holds of its candidates: each winner as published, found by its id; of every other one
      its diagnostic; and no id without a winner. */
  ghost predicate Holds(s: Snapshot, all: seq<Descriptor>)
  {
    (forall k :: Wins(all, k) ==> s.Get(all[k].id) == Some(AsPublished(all[k], s.generation))) &&
    (forall id :: s.Get(id).Some? ==> exists k :: Wins(all, k) && all[k].id == id) &&
    (forall k :: 0 <= k < |all| && !Wins(all, k) ==> exists d :: d in s.diagnostics && Explains(d, all, k))
  }

  lemma {:induction false} AcceptsIsWins(all: seq<Descriptor>, build: nat, k: nat)
    requires k < |all|
    ensures Accepts(all, Verdict(build), k) <==> Wins(all, k)
    ensures Accepts(all, Verdict(build), k) ==> First(all, Verdict(build), all[k].id, |all|) == k
  {
    var judge := Verdict(build);
    forall j | 0 <= j < |all|
      ensures judge(all[j]).None? <==> Acceptable(all[j])
    {
      PassesIsAcceptable(all[j], build);
    }
    var f := First(all, judge, all[k].id, k);
    var g := First(all, judge, all[k].id, |all|);
    if Accepts(all, judge, k) {
      FirstIs(all, judge, all[k].id, |all|, k);
    }
  }

  lemma {:induction false} FirstIs(all: seq<Descriptor>, judge: Judge, id: string, n: nat, k: nat)
    requires k < n <= |all| && judge(all[k]).None? && all[k].id == id
    requires forall j :: 0 <= j < k ==> !(judge(all[j]).None? && all[j].id == id)
    ensures First(all, judge, id, n) == k
  {
  }

  lemma {:induction false} WhyExplains(all: seq<Descriptor>, build: nat, k: nat)
    requires k < |all| && !Wins(all, k)
    ensures !Accepts(all, Verdict(build), k) && Explains(Why(all, Verdict(build), k), all, k)
  {
    var judge, d := Verdict(build), all[k];
    AcceptsIsWins(all, build, k);
    PassesIsAcceptable(d, build);
    if Acceptable(d) {
      var j := First(all, judge, d.id, k);
      assert j < k;
      FirstIs(all, judge, d.id, j + 1, j);
      assert Accepts(all, judge, j) by { FirstFront(all, judge, d.id, j); }
      AcceptsIsWins(all, build, j);
    }
  }

  lemma {:induction false} FirstFront(all: seq<Descriptor>, judge: Judge, id: string, j: nat)
    requires j <= |all| && forall i :: 0 <= i < j ==> !(judge(all[i]).None? && all[i].id == id)
    ensures First(all, judge, id, j) == j
  {
  }

  lemma {:induction false} WinnerIsFound(s: Snapshot, all: seq<Descriptor>, k: int)
    requires BuiltFrom(s, all) && Wins(all, k)
    ensures s.Get(all[k].id) == Some(AsPublished(all[k], s.generation))
  {
    AcceptsIsWins(all, s.generation, k);
    FirstAcceptableWins(s, all, all[k].id);
    PreparedIs(all[k], s.generation);
  }

  lemma {:induction false} FoundHasWinner(s: Snapshot, all: seq<Descriptor>, id: string)
    requires BuiltFrom(s, all) && s.Get(id).Some?
    ensures exists k :: Wins(all, k) && all[k].id == id
  {
    var judge := Verdict(s.generation);
    FirstAcceptableWins(s, all, id);
    var k := First(all, judge, id, |all|);
    FirstFront(all, judge, id, k);
    AcceptsIsWins(all, s.generation, k);
  }

  lemma {:induction false} LoserIsTold(s: Snapshot, all: seq<Descriptor>, k: nat)
    requires BuiltFrom(s, all) && k < |all| && !Wins(all, k)
    ensures exists d :: d in s.diagnostics && Explains(d, all, k)
  {
    WhyExplains(all, s.generation, k);
    CandidateIsTold(all, Verdict(s.generation), s.generation, |all|, k);
  }

  lemma {:induction false} BuiltHolds(s: Snapshot, all: seq<Descriptor>)
    requires BuiltFrom(s, all)
    ensures Holds(s, all)
  {
    forall k | Wins(all, k)
      ensures s.Get(all[k].id) == Some(AsPublished(all[k], s.generation))
    {
      WinnerIsFound(s, all, k);
    }
    forall id | s.Get(id).Some?
      ensures exists k :: Wins(all, k) && all[k].id == id
    {
      FoundHasWinner(s, all, id);
    }
    forall k | 0 <= k < |all| && !Wins(all, k)
      ensures exists d :: d in s.diagnostics && Explains(d, all, k)
    {
      LoserIsTold(s, all, k);
    }
  }

  lemma {:induction false} AcceptedComesFrom(all: seq<Descriptor>, judge: Judge, build: nat, n: nat, m: nat)
    returns (k: nat)
    requires n <= |all| && m < |Accepted(all, judge, build, n)|
    ensures k < n && Accepts(all, judge, k) && Accepted(all, judge, build, n)[m] == all[k].Prepared(build)
  {
    if m < |Accepted(all, judge, build, n - 1)| {
      k := AcceptedComesFrom(all, judge, build, n - 1, m);
    } else {
      k := n - 1;
    }
  }

  // ---- The audit ----

  datatype Rule = WithoutHandler | WithoutSchema | GrantEscalation | WithoutHealth | StaleGeneration | WithoutSurface
  datatype Finding = Finding(rule: Rule, subject: string)

  predicate Violates(d: Descriptor, generation: nat, rule: Rule)
  {
    match rule
    case WithoutHandler => d.operations == [] || d.target == Nowhere || Blank(d.binding.handler)
    case WithoutSchema => Blank(d.binding.input) || Blank(d.binding.output)
    case GrantEscalation => !(d.binding.effective <= d.binding.requested)
    case WithoutHealth => !d.Runs() || Blank(d.evidence)
    case StaleGeneration => d.generation != generation
    case WithoutSurface => d.action.None? || d.action.value == ""
  }

  /** The finding is true of the snapshot: a visible surface of that id breaks the rule. */
  ghost predicate Broken(s: Snapshot, f: Finding)
  {
    exists d :: d in s.descriptors && Breaks(d, s.generation, f)
  }

  predicate Breaks(d: Descriptor, generation: nat, f: Finding)
  {
    d.visible && d.executable && d.id == f.subject && Violates(d, generation, f.rule)
  }

  /** The rules in the order of their names: effective-grant-escalation, executable-without-handler, -health,
      -schema, -surface, stale-capability-generation. */
  const BY_NAME: seq<Rule> :=
    [GrantEscalation, WithoutHandler, WithoutHealth, WithoutSchema, WithoutSurface, StaleGeneration]

  function Place(rule: Rule): (k: nat)
    ensures k < |BY_NAME| && BY_NAME[k] == rule
  {
    match rule
    case GrantEscalation => 0
    case WithoutHandler => 1
    case WithoutHealth => 2
    case WithoutSchema => 3
    case WithoutSurface => 4
    case StaleGeneration => 5
  }

  predicate Precedes(f: Finding, g: Finding)
  {
    Place(f.rule) < Place(g.rule) || (f.rule == g.rule && Lexicographic.Less(f.subject, g.subject))
  }

  ghost predicate InOrder(findings: seq<Finding>)
  {
    forall i, j :: 0 <= i < j < |findings| ==> Precedes(findings[i], findings[j])
  }

  /** The subjects that break one rule. */
  method Subjects(s: Snapshot, rule: Rule) returns (subjects: set<string>)
    ensures forall id :: id in subjects <==> Broken(s, Finding(rule, id))
  {
    subjects := {};
    for m := 0 to |s.descriptors|
      invariant forall id :: id in subjects <==>
                  exists k :: 0 <= k < m && Breaks(s.descriptors[k], s.generation, Finding(rule, id))
    {
      var d := s.descriptors[m];
      if d.visible && d.executable && Violates(d, s.generation, rule) { subjects := subjects + {d.id}; }
    }
    forall id
      ensures id in subjects <==> Broken(s, Finding(rule, id))
    {
      if d :| d in s.descriptors && Breaks(d, s.generation, Finding(rule, id)) {
        var k :| 0 <= k < |s.descriptors| && s.descriptors[k] == d;
      }
    }
  }

  /** The findings of one rule join those of the rules before it. */
  method Join(findings: seq<Finding>, rule: Rule, ids: seq<string>) returns (more: seq<Finding>)
    requires InOrder(findings) && Lexicographic.Increasing(ids)
    requires forall f :: f in findings ==> Place(f.rule) < Place(rule)
    ensures InOrder(more) && forall f :: f in more <==> f in findings || (f.rule == rule && f.subject in ids)
  {
    more := findings;
    for k := 0 to |ids|
      invariant InOrder(more) && |more| == |findings| + k && more[..|findings|] == findings
      invariant forall j :: 0 <= j < k ==> more[|findings| + j] == Finding(rule, ids[j])
    {
      forall i | 0 <= i < |more|
        ensures Precedes(more[i], Finding(rule, ids[k]))
      {
        if i < |findings| {
          assert more[i] == more[..|findings|][i] && more[i] in findings;
        } else {
          assert Lexicographic.Less(ids[i - |findings|], ids[k]);
        }
      }
      more := more + [Finding(rule, ids[k])];
    }
    JoinedMembers(findings, rule, ids, more);
  }

  lemma {:induction false} JoinedMembers(findings: seq<Finding>, rule: Rule, ids: seq<string>, more: seq<Finding>)
    requires |more| == |findings| + |ids| && more[..|findings|] == findings
    requires forall j :: 0 <= j < |ids| ==> more[|findings| + j] == Finding(rule, ids[j])
    ensures forall f :: f in more <==> f in findings || (f.rule == rule && f.subject in ids)
  {
    var n := |findings|;
    assert forall k :: 0 <= k < n ==> more[k] == more[..n][k] == findings[k] && more[k] in more;
    forall k | n <= k < |more|
      ensures more[k] == Finding(rule, ids[k - n])
    {
      assert more[n + (k - n)] == more[k];
    }
    assert forall j :: 0 <= j < |ids| ==> more[n + j] in more && ids[j] in ids;
    forall f | f in more
      ensures f in findings || (f.rule == rule && f.subject in ids)
    {
      var k :| 0 <= k < |more| && more[k] == f;
    }
  }

  /** A visible surface that names no operation or reaches nothing. */
  predicate Unbound(d: Descriptor) { d.visible && d.executable && (d.operations == [] || d.target == Nowhere) }

  /** The audit of any snapshot reports each broken rule once for each id, sorted. That of a built one
      reports exactly the visible surfaces that bind no operation or target, and under no rule but the one
      for a missing handler. */
  method Audit(s: Snapshot) returns (findings: seq<Finding>)
    ensures InOrder(findings) && forall f :: f in findings <==> Broken(s, f)
    ensures forall f :: f in findings <==> Earned(s, f)
    ensures forall all :: BuiltFrom(s, all) ==>
              forall f :: f in findings <==> f.rule == WithoutHandler && UnboundIn(s, f.subject)
  {
    findings := [];
    for k := 0 to |BY_NAME|
      invariant InOrder(findings) && forall f :: f in findings <==> Place(f.rule) < k && Broken(s, f)
    {
      var rule := BY_NAME[k];
      RulePlace(k);
      var subjects := Subjects(s, rule);
      var ids := Lexicographic.Sorted(subjects);
      var before := findings;
      findings := Join(before, rule, ids);
      forall f
        ensures f in findings <==> Place(f.rule) < k + 1 && Broken(s, f)
      {
        assert Place(f.rule) == k ==> f == Finding(rule, f.subject);
      }
    }
    forall f
      ensures Broken(s, f) <==> Earned(s, f)
    {
      BrokenIsEarned(s, f);
    }
    forall all | BuiltFrom(s, all)
      ensures forall f :: f in findings <==> f.rule == WithoutHandler && UnboundIn(s, f.subject)
    {
      forall f
        ensures Broken(s, f) <==> f.rule == WithoutHandler && UnboundIn(s, f.subject)
      {
        OnlyUnbound(s, all, f);
      }
    }
  }

  /** What each finding says of a surface of its id, in words of the descriptor. */
  ghost predicate Earned(s: Snapshot, f: Finding)
  {
    exists d :: d in s.descriptors && d.id == f.subject && d.visible && d.executable && Faulty(d, s.generation, f.rule)
  }

  predicate Faulty(d: Descriptor, generation: nat, rule: Rule)
  {
    (rule == WithoutHandler ==> !(d.operations != [] && d.target != Nowhere && !Blank(d.binding.handler))) &&
    (rule == WithoutSchema ==> !(!Blank(d.binding.input) && !Blank(d.binding.output))) &&
    (rule == GrantEscalation ==> exists g :: g in d.binding.effective && g !in d.binding.requested) &&
    (rule == WithoutHealth ==> !((d.health == Healthy || d.health == Degraded) && !Blank(d.evidence))) &&
    (rule == StaleGeneration ==> d.generation != generation) &&
    (rule == WithoutSurface ==> !(d.action.Some? && d.action.value != ""))
  }

  ghost predicate UnboundIn(s: Snapshot, id: string) { exists d :: d in s.descriptors && d.id == id && Unbound(d) }

  lemma {:induction false} BrokenIsEarned(s: Snapshot, f: Finding)
    ensures Broken(s, f) <==> Earned(s, f)
  {
    if d :| d in s.descriptors && Breaks(d, s.generation, f) { assert Faulty(d, s.generation, f.rule); }
    if d :| d in s.descriptors && d.id == f.subject && d.visible && d.executable && Faulty(d, s.generation, f.rule) {
      assert Breaks(d, s.generation, f);
    }
  }

  lemma {:induction false} RulePlace(k: nat)
    requires k < |BY_NAME|
    ensures Place(BY_NAME[k]) == k && forall rule :: Place(rule) == k ==> rule == BY_NAME[k]
  {
  }

  /** Of a built snapshot the audit can say only that a surface binds no operation or target. */
  lemma {:induction false} OnlyUnbound(s: Snapshot, all: seq<Descriptor>, f: Finding)
    requires BuiltFrom(s, all)
    ensures Broken(s, f) <==> f.rule == WithoutHandler && UnboundIn(s, f.subject)
  {
    forall d | d in s.descriptors && d.visible && d.executable
      ensures Violates(d, s.generation, f.rule) <==>
              f.rule == WithoutHandler && (d.operations == [] || d.target == Nowhere)
    {
      var m :| 0 <= m < |s.descriptors| && s.descriptors[m] == d;
      var k := AcceptedComesFrom(all, Verdict(s.generation), s.generation, |all|, m);
      AcceptedSurface(all[k], s.generation);
    }
    if d :| d in s.descriptors && Breaks(d, s.generation, f) { assert Violates(d, s.generation, f.rule); }
    if f.rule == WithoutHandler {
      if d :| d in s.descriptors && d.id == f.subject && Unbound(d) {
        assert Violates(d, s.generation, f.rule) && Breaks(d, s.generation, f);
      }
    }
  }

  // ---- The second finder of duplicates ----

  /** The second finder judges no candidate by itself. */
  function Lenient(): Judge { (d: Descriptor) => None }

  /** The source of the first candidate of every id. */
  ghost predicate Winners(winner: map<string, string>, all: seq<Descriptor>, k: nat)
    requires k <= |all|
  {
    (forall id :: id in winner <==> First(all, Lenient(), id, k) < k) &&
    (forall id :: id in winner ==> winner[id] == all[First(all, Lenient(), id, k)].source)
  }

  lemma {:induction false} WinnersMore(winner: map<string, string>, all: seq<Descriptor>, k: nat)
    requires k < |all| && Winners(winner, all, k)
    ensures Winners(if all[k].id in winner then winner else winner[all[k].id := all[k].source], all, k + 1)
    ensures Accepts(all, Lenient(), k) <==> all[k].id !in winner
    ensures all[k].id in winner ==>
              Why(all, Lenient(), k) == Diagnostic(all[k].id, winner[all[k].id], all[k].source, Duplicate)
  {
    forall id
      ensures First(all, Lenient(), id, k + 1) ==
              if id in winner then First(all, Lenient(), id, k) else if all[k].id == id then k else k + 1
    {
      FirstMore(all, Lenient(), id, k);
    }
  }

  ghost predicate Told(diagnostics: seq<Diagnostic>, winner: map<string, string>, all: seq<Descriptor>, k: nat)
    requires k <= |all|
  {
    diagnostics == Rejected(all, Lenient(), k) && Winners(winner, all, k)
  }

  lemma {:induction false} TellMore(diagnostics: seq<Diagnostic>, winner: map<string, string>, all: seq<Descriptor>,
                                    k: nat)
    requires k < |all| && Told(diagnostics, winner, all, k)
    ensures var d := all[k];
            if d.id in winner then
              Told(diagnostics + [Diagnostic(d.id, winner[d.id], d.source, Duplicate)], winner, all, k + 1)
            else Told(diagnostics, winner[d.id := d.source], all, k + 1)
  {
    WinnersMore(winner, all, k);
  }

  method DiagnosticsFor(all: seq<Descriptor>) returns (diagnostics: seq<Diagnostic>)
    ensures diagnostics == Rejected(all, Lenient(), |all|)
  {
    var winner: map<string, string> := map[];
    diagnostics := [];
    for k := 0 to |all|
      invariant Told(diagnostics, winner, all, k)
    {
      var d := all[k];
      TellMore(diagnostics, winner, all, k);
      if d.id in winner {
        diagnostics := diagnostics + [Diagnostic(d.id, winner[d.id], d.source, Duplicate)];
      } else {
        winner := winner[d.id := d.source];
      }
    }
  }

  /** The two finders agree exactly when the build rejects nothing for another reason. */
  lemma {:induction false} FindersAgree(all: seq<Descriptor>, build: nat)
    ensures Rejected(all, Verdict(build), |all|) == Rejected(all, Lenient(), |all|) <==>
            forall k :: 0 <= k < |all| ==> all[k].Passes(build)
  {
    var judge := Verdict(build);
    if AllPass(all, judge) {
      AllPassAgree(all, judge, Lenient());
    } else {
      var k :| 0 <= k < |all| && judge(all[k]).Some?;
      CandidateIsTold(all, judge, build, |all|, k);
      OnlyDuplicates(all, |all|);
      assert Why(all, judge, k).reason != Duplicate;
    }
  }

  ghost predicate AllPass(all: seq<Descriptor>, judge: Judge)
  {
    forall k :: 0 <= k < |all| ==> judge(all[k]).None?
  }

  lemma {:induction false} SameFirst(all: seq<Descriptor>, judge: Judge, other: Judge, id: string, n: nat)
    requires n <= |all| && AllPass(all, judge) && AllPass(all, other)
    ensures First(all, judge, id, n) == First(all, other, id, n)
  {
    if n > 0 { SameFirst(all, judge, other, id, n - 1); }
  }

  lemma {:induction false} SameAnswer(all: seq<Descriptor>, judge: Judge, other: Judge, k: nat)
    requires k < |all| && AllPass(all, judge) && AllPass(all, other)
    ensures RejectedAt(all, judge, k) == RejectedAt(all, other, k)
  {
    SameFirst(all, judge, other, all[k].id, k);
  }

  lemma {:induction false} SameRejected(all: seq<Descriptor>, judge: Judge, other: Judge, n: nat)
    requires n <= |all| && forall k :: 0 <= k < n ==> RejectedAt(all, judge, k) == RejectedAt(all, other, k)
    ensures Rejected(all, judge, n) == Rejected(all, other, n)
  {
    if n > 0 {
      SameRejected(all, judge, other, n - 1);
      SameMore(all, judge, other, n - 1);
    }
  }

  lemma {:induction false} AllPassAgree(all: seq<Descriptor>, judge: Judge, other: Judge)
    requires AllPass(all, judge) && AllPass(all, other)
    ensures Rejected(all, judge, |all|) == Rejected(all, other, |all|)
  {
    forall k | 0 <= k < |all|
      ensures RejectedAt(all, judge, k) == RejectedAt(all, other, k)
    {
      SameAnswer(all, judge, other, k);
    }
    SameRejected(all, judge, other, |all|);
  }

  lemma {:induction false} SameMore(all: seq<Descriptor>, judge: Judge, other: Judge, n: nat)
    requires n < |all| && Rejected(all, judge, n) == Rejected(all, other, n)
    requires RejectedAt(all, judge, n) == RejectedAt(all, other, n)
    ensures Rejected(all, judge, n + 1) == Rejected(all, other, n + 1)
  {
    RejectedMore(all, judge, n);
    RejectedMore(all, other, n);
  }

  lemma {:induction false} OnlyDuplicates(all: seq<Descriptor>, n: nat)
    requires n <= |all|
    ensures forall k :: 0 <= k < |Rejected(all, Lenient(), n)| ==> Rejected(all, Lenient(), n)[k].reason == Duplicate
  {
    if n > 0 { OnlyDuplicates(all, n - 1); }
  }

  // ---- The published snapshot ----

  const MAX_GENERATION: nat := 0xffff_ffff_ffff_ffff

  class Published {
    var snapshot: Snapshot
    var dirty: bool

    constructor ()
      ensures dirty && snapshot == Snapshot(0, "", [], [], map[])
    {
      snapshot, dirty := Snapshot(0, "", [], [], map[]), true;
    }

    method Invalidate()
      modifies this`dirty
      ensures dirty
    {
      dirty := true;
    }

    /** One rebuild, alone: `candidates` is what the sources name while it runs. */
    method Refresh(cwd: string, candidates: seq<Descriptor>) returns (s: Snapshot)
      modifies this
      ensures s == snapshot && !dirty && s.cwd == cwd
      ensures !old(dirty) && old(snapshot).cwd == cwd ==> s == old(snapshot)
      ensures old(dirty) || old(snapshot).cwd != cwd ==>
                BuiltFrom(s, candidates) &&
                s.generation == if old(snapshot).generation < MAX_GENERATION then old(snapshot).generation + 1
                                else old(snapshot).generation
    {
      if !dirty && snapshot.cwd == cwd { return snapshot; }
      var next := if snapshot.generation < MAX_GENERATION then snapshot.generation + 1 else snapshot.generation;
      s := Build(cwd, next, candidates);
      snapshot := s;
      dirty := false;
    }
  }
}
