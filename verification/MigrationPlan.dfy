/** Migration plans and what they make of one document: kept, rewritten, or refused. Documents are
    values of an unseen kind; how bytes are read and written is a `Codec`. */
module MigrationPlan {

  type Value(==, !new)

  datatype Option<T> = None | Some(value: T)

  const U32_MAX: nat := 0xFFFF_FFFF

  type u32 = n: nat | n <= U32_MAX

  /** How documents are read (as JSON, as YAML), written, and how their schema version is read and
      stamped. A value that cannot be stamped stands for one that is no object. */
  datatype Codec = Codec(
    json: string -> Option<Value>,
    yaml: string -> Option<Value>,
    encode: Value -> string,
    version: Value -> Option<u32>,
    stamp: (Value, u32) -> Option<Value>)
  {
    ghost predicate Faithful()
    {
      (forall v :: json(encode(v) + "\n") == Some(v)) &&
      (forall v, n: u32 :: stamp(v, n).Some? ==> version(stamp(v, n).value) == Some(n))
    }

    /** A store is read as JSON, else as YAML. */
    function Read(bytes: string): Option<Value>
    {
      if json(bytes).Some? then json(bytes) else yaml(bytes)
    }
  }

  datatype Step = Step(from: u32, to: u32, apply: Value -> Option<Value>)

  datatype Plan = Plan(
    store: string, from: u32, to: u32, steps: seq<Step>, preflight: Value -> bool,
    oldestReadable: u32, newestReadable: u32, rollbackFloor: u32)

  function SaturatingNext(v: u32): u32 { if v < U32_MAX then v + 1 else U32_MAX }

  /** The steps lead from `from` to `to`, each one version further. */
  ghost predicate Chain(steps: seq<Step>, from: u32, to: u32)
    decreases |steps|
  {
    if steps == [] then from == to
    else steps[0].from == from && steps[0].to == SaturatingNext(from) && Chain(steps[1..], steps[0].to, to)
  }

  ghost predicate ValidPlan(p: Plan)
  {
    p.from <= p.to && p.oldestReadable <= p.from && p.to <= p.newestReadable && p.rollbackFloor <= p.to &&
    Chain(p.steps, p.from, p.to)
  }

  method Validate(p: Plan) returns (valid: bool)
    ensures valid <==> ValidPlan(p)
  {
    if p.from > p.to || p.oldestReadable > p.from || p.newestReadable < p.to || p.rollbackFloor > p.to {
      return false;
    }
    var version: u32 := p.from;
    for k := 0 to |p.steps|
      invariant Chain(p.steps, p.from, p.to) <==> Chain(p.steps[k..], version, p.to)
    {
      assert p.steps[k..][1..] == p.steps[k + 1..];
      if p.steps[k].from != version || p.steps[k].to != SaturatingNext(version) {
        return false;
      }
      version := p.steps[k].to;
    }
    return version == p.to;
  }

  // ---- One document ----

  datatype Refusal = BadPlan | Corrupt | Unfit | BadVersion | Newer | Older | NoPath | StepFailed | Unencodable
  datatype Verdict = Keep(version: u32) | Rewrite(from: u32, bytes: string) | Refuse(why: Refusal)

  /** The steps from version `from` on, one after the other, each stamping its own version. */
  ghost function Upgrade(c: Codec, steps: seq<Step>, v: Value, from: u32): Option<Value>
    decreases |steps|
  {
    if steps == [] then Some(v)
    else if steps[0].from < from then Upgrade(c, steps[1..], v, from)
    else
      match steps[0].apply(v)
      case None => None
      case Some(applied) =>
        match c.stamp(applied, steps[0].to)
        case None => None
        case Some(stamped) => Upgrade(c, steps[1..], stamped, from)
  }

  /** What `migrate_json` makes of a store holding `bytes`. */
  ghost function Judge(c: Codec, p: Plan, bytes: string): Verdict
  {
    match c.Read(bytes)
    case None => Refuse(Corrupt)
    case Some(v) =>
      if !p.preflight(v) then Refuse(Unfit)
      else
        match c.version(v)
        case None => Refuse(BadVersion)
        case Some(from) =>
          if from > p.to then Refuse(Newer)
          else if from < p.oldestReadable then Refuse(Older)
          else if from == p.to then Keep(from)
          else if from < p.from then Refuse(NoPath)
          else
            match Upgrade(c, p.steps, v, from)
            case None => Refuse(StepFailed)
            case Some(u) => if p.preflight(u) then Rewrite(from, c.encode(u) + "\n") else Refuse(Unfit)
  }

  // ---- What a migration makes of a document ----

  /** What a step makes of `v`, stamped with the version the step leads to, is `w`. */
  ghost predicate Turns(c: Codec, step: Step, v: Value, w: Value)
  {
    step.apply(v).Some? && c.stamp(step.apply(v).value, step.to) == Some(w)
  }

  /** The documents a store goes through, from the one read to the one written. */
  ghost predicate Trail(c: Codec, steps: seq<Step>, trail: seq<Value>)
  {
    |trail| == |steps| + 1 && forall k :: 0 <= k < |steps| ==> Turns(c, steps[k], trail[k], trail[k + 1])
  }

  /** The steps from version `from` on, each applied once and in order, turn `v` into `last`. */
  ghost predicate Makes(c: Codec, p: Plan, v: Value, from: u32, last: Value)
  {
    p.from <= from && from - p.from <= |p.steps| &&
    exists trail :: Trail(c, p.steps[from - p.from..], trail) && trail[0] == v && trail[|trail| - 1] == last
  }

  /** Step `k` of a chain is for version `from + k`, as long as there are such versions. */
  lemma {:induction false} ChainIs(steps: seq<Step>, from: u32, to: u32)
    ensures Chain(steps, from, to) <==>
              to == Version(from, |steps|) &&
              forall k :: 0 <= k < |steps| ==> steps[k].from == Version(from, k) && steps[k].to == Version(from, k + 1)
    decreases |steps|
  {
    if steps != [] {
      var rest, next := steps[1..], SaturatingNext(from);
      ChainIs(rest, next, to);
      assert forall k :: 0 <= k < |rest| ==> rest[k] == steps[k + 1];
      assert forall k :: 1 <= k < |steps| ==> steps[k] == rest[k - 1];
      assert forall k: nat :: Version(next, k) == Version(from, k + 1);
    }
  }

  function Version(from: u32, k: nat): u32 { if from + k < U32_MAX then from + k else U32_MAX }

  /** The steps below `from` are passed over. */
  lemma {:induction false} UpgradeSkips(c: Codec, steps: seq<Step>, v: Value, from: u32, reached: u32, to: u32)
    requires Chain(steps, reached, to) && reached <= from < to
    ensures from - reached <= |steps| && Chain(steps[from - reached..], from, to)
    ensures Upgrade(c, steps, v, from) == Upgrade(c, steps[from - reached..], v, from)
    decreases |steps|
  {
    if reached < from {
      UpgradeSkips(c, steps[1..], v, from, steps[0].to, to);
      assert steps[1..][from - steps[0].to..] == steps[from - reached..];
    }
  }

  lemma {:induction false} UpgradeTrail(c: Codec, steps: seq<Step>, v: Value, from: u32, reached: u32, to: u32)
    returns (trail: seq<Value>)
    requires Chain(steps, reached, to) && from <= reached && Upgrade(c, steps, v, from).Some?
    ensures Trail(c, steps, trail) && trail[0] == v && trail[|trail| - 1] == Upgrade(c, steps, v, from).value
    decreases |steps|
  {
    if steps == [] {
      trail := [v];
    } else {
      var next := c.stamp(steps[0].apply(v).value, steps[0].to).value;
      var rest := UpgradeTrail(c, steps[1..], next, from, steps[0].to, to);
      trail := [v] + rest;
      assert forall k :: 1 <= k < |steps| ==> steps[k] == steps[1..][k - 1];
    }
  }

  lemma {:induction false} TrailUpgrades(c: Codec, steps: seq<Step>, from: u32, reached: u32, to: u32, trail: seq<Value>)
    requires Chain(steps, reached, to) && from <= reached && Trail(c, steps, trail)
    ensures Upgrade(c, steps, trail[0], from) == Some(trail[|trail| - 1])
    decreases |steps|
  {
    if steps != [] {
      var rest := trail[1..];
      assert Turns(c, steps[0], trail[0], trail[1]);
      forall k | 0 <= k < |steps| - 1
        ensures Turns(c, steps[1..][k], rest[k], rest[k + 1])
      {
        assert Turns(c, steps[k + 1], trail[k + 1], trail[k + 2]);
      }
      TrailUpgrades(c, steps[1..], from, steps[0].to, to, rest);
    }
  }

  /** The upgrade of a document is what the steps from its version on make of it. */
  lemma {:induction false} UpgradeMakes(c: Codec, p: Plan, v: Value, from: u32)
    requires ValidPlan(p) && p.from <= from < p.to
    ensures forall last :: Makes(c, p, v, from, last) <==> Upgrade(c, p.steps, v, from) == Some(last)
  {
    UpgradeSkips(c, p.steps, v, from, p.from, p.to);
    var steps := p.steps[from - p.from..];
    if Upgrade(c, p.steps, v, from).Some? {
      var trail := UpgradeTrail(c, steps, v, from, from, p.to);
    }
    forall last | Makes(c, p, v, from, last)
      ensures Upgrade(c, p.steps, v, from) == Some(last)
    {
      var trail :| Trail(c, steps, trail) && trail[0] == v && trail[|trail| - 1] == last;
      TrailUpgrades(c, steps, from, from, p.to, trail);
    }
  }

  /** A store's bytes read as the document `v`: as JSON, or as YAML where they are no JSON. */
  ghost predicate Reads(c: Codec, bytes: string, v: Value)
  {
    c.json(bytes) == Some(v) || (c.json(bytes).None? && c.yaml(bytes) == Some(v))
  }

  /** What is to become of the document `v`, by its version and by what the steps make of it. */
  ghost predicate FitsDocument(c: Codec, p: Plan, v: Value, verdict: Verdict)
  {
    if !p.preflight(v) then verdict == Refuse(Unfit)
    else if c.version(v).None? then verdict == Refuse(BadVersion)
    else
      var n := c.version(v).value;
      (n > p.to ==> verdict == Refuse(Newer)) && (n < p.oldestReadable ==> verdict == Refuse(Older)) &&
      (n == p.to ==> verdict == Keep(n)) && (p.oldestReadable <= n < p.from ==> verdict == Refuse(NoPath)) &&
      (p.from <= n < p.to ==>
         (verdict == Refuse(StepFailed) <==> forall last :: !Makes(c, p, v, n, last)) &&
         forall last :: Makes(c, p, v, n, last) ==>
           verdict == if p.preflight(last) then Rewrite(n, c.encode(last) + "\n") else Refuse(Unfit))
  }

  /** The judgement of a store, told in documents. */
  lemma {:induction false} JudgeFits(c: Codec, p: Plan, bytes: string)
    requires ValidPlan(p)
    ensures Judge(c, p, bytes) == Refuse(Corrupt) <==> c.json(bytes).None? && c.yaml(bytes).None?
    ensures forall v :: Reads(c, bytes, v) ==> FitsDocument(c, p, v, Judge(c, p, bytes))
  {
    forall v | Reads(c, bytes, v)
      ensures FitsDocument(c, p, v, Judge(c, p, bytes))
    {
      assert c.Read(bytes) == Some(v);
      if c.version(v).Some? && p.from <= c.version(v).value < p.to {
        UpgradeMakes(c, p, v, c.version(v).value);
      }
    }
  }

  /** The step loop: with a valid plan no gap is met and the loop stops at the target version. Each step from
      the document's version on is applied to what the one before it made. */
  method RunSteps(c: Codec, p: Plan, v: Value, from: u32) returns (r: Option<Value>)
    requires ValidPlan(p) && p.from <= from < p.to
    ensures r == Upgrade(c, p.steps, v, from)
    ensures r.Some? <==> exists last :: Makes(c, p, v, from, last)
    ensures forall last :: Makes(c, p, v, from, last) ==> r == Some(last)
    ensures r.Some? && c.Faithful() ==> c.version(r.value) == Some(p.to)
  {
    UpgradeMakes(c, p, v, from);
    var value := v;
    var current: u32 := from;
    ghost var reached: u32 := p.from;
    for k := 0 to |p.steps|
      invariant Upgrade(c, p.steps, v, from) == Upgrade(c, p.steps[k..], value, from)
      invariant Chain(p.steps[k..], reached, p.to)
      invariant current == if reached <= from then from else reached
      invariant reached > from && c.Faithful() ==> c.version(value) == Some(reached)
    {
      var step := p.steps[k];
      assert p.steps[k..][1..] == p.steps[k + 1..];
      if step.from >= from {
        if step.from != current {
          assert false;
        }
        var applied := step.apply(value);
        if applied.None? {
          return None;
        }
        var stamped := c.stamp(applied.value, step.to);
        if stamped.None? {
          return None;
        }
        value := stamped.value;
        current := step.to;
      }
      reached := step.to;
    }
    if current != p.to {
      assert false;
    }
    return Some(value);
  }

  /** A rewritten document is current: migrating it again changes nothing. */
  lemma {:induction false} RewrittenIsKept(c: Codec, p: Plan, bytes: string)
    requires c.Faithful() && ValidPlan(p) && Judge(c, p, bytes).Rewrite?
    ensures Judge(c, p, Judge(c, p, bytes).bytes) == Keep(p.to)
    ensures c.json(Judge(c, p, bytes).bytes).Some?
    ensures c.version(c.json(Judge(c, p, bytes).bytes).value) == Some(p.to)
  {
    var v := c.Read(bytes).value;
    var from := c.version(v).value;
    UpgradeReaches(c, p.steps, v, from, p.from, p.to);
    var u := Upgrade(c, p.steps, v, from).value;
    assert c.json(c.encode(u) + "\n") == Some(u);
  }

  lemma {:induction false} UpgradeReaches(c: Codec, steps: seq<Step>, v: Value, from: u32, reached: u32, to: u32)
    requires c.Faithful() && Chain(steps, reached, to) && Upgrade(c, steps, v, from).Some?
    requires reached > from ==> c.version(v) == Some(reached)
    ensures to > from ==> c.version(Upgrade(c, steps, v, from).value) == Some(to)
    decreases |steps|
  {
    if steps != [] {
      if steps[0].from < from {
        UpgradeReaches(c, steps[1..], v, from, steps[0].to, to);
      } else {
        var stamped := c.stamp(steps[0].apply(v).value, steps[0].to).value;
        UpgradeReaches(c, steps[1..], stamped, from, steps[0].to, to);
      }
    }
  }
}
