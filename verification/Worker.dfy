/** The leased job queue. Every operation is one transaction over the job rows and reads a clock of its
    own: the clocks of the hosts that share the queue owe each other nothing. */
module Worker {
  import Lexicographic

  const I64_MAX: int := 0x7fff_ffff_ffff_ffff
  const I64_MIN: int := -0x8000_0000_0000_0000

  type i64 = x: int | I64_MIN <= x <= I64_MAX witness 0

  datatype Option<T> = None | Some(value: T)
  datatype Answer<T> = Ok(value: T) | Err

  datatype State = Queued | Leased | Done | Failed

  datatype Job = Job(kind: string, payload: string, state: State, attempts: i64, availableAt: i64,
                     leaseOwner: Option<string>, leaseUntil: Option<i64>, heartbeatAt: Option<i64>,
                     lastError: Option<string>, createdAt: i64, updatedAt: i64)

  datatype LeasedJob = LeasedJob(id: string, kind: string, payload: string, attempts: i64, leaseUntil: i64)

  /** A row as the status lists it: all but its payload and its last heartbeat. */
  datatype Row = Row(id: string, kind: string, state: State, attempts: i64, availableAt: i64, leaseOwner: Option<string>,
                     leaseUntil: Option<i64>, lastError: Option<string>, createdAt: i64, updatedAt: i64)

  datatype Status = Status(total: nat, pending: nat, queued: nat, leased: nat, done: nat, failed: nat, jobs: seq<Row>)

  /** How a worker's pass over the queue ended. */
  datatype Pass = Nothing | Processed | NotClaimed | LostBeforeWork | LostBeforeDone | WorkFailed | LostBeforeRecord

  function LeaseUntil(now: i64, leaseMs: i64): (r: Answer<i64>)
    ensures r.Ok? <==> leaseMs > 0 && now + leaseMs <= I64_MAX
    ensures r.Ok? ==> now < r.value
  {
    if leaseMs <= 0 then Err else if now + leaseMs > I64_MAX then Err else Ok(now + leaseMs)
  }

  /** What a claim may take: a queued job, or a leased one whose lease has run out by the claimer's clock. */
  predicate Eligible(job: Job, now: i64)
  {
    job.availableAt <= now &&
    (job.state == Queued || (job.state == Leased && job.leaseUntil.Some? && job.leaseUntil.value <= now))
  }

  /** The filter of every update a worker makes to a job it leases. */
  predicate Holds(job: Job, worker: string, now: i64)
  {
    job.leaseOwner == Some(worker) && job.state == Leased && job.leaseUntil.Some? && job.leaseUntil.value > now
  }

  /** The job is leased to the worker and the lease has not run out by the clock. */
  predicate LeasedTo(jobs: map<string, Job>, id: string, worker: string, now: i64)
  {
    id in jobs && jobs[id].state == Leased && jobs[id].leaseOwner == Some(worker) &&
    jobs[id].leaseUntil.Some? && now < jobs[id].leaseUntil.value
  }

  function Taken(job: Job, worker: string, now: i64, until: i64): Job
    requires job.attempts < I64_MAX
  {
    job.(state := Leased, leaseOwner := Some(worker), leaseUntil := Some(until), heartbeatAt := Some(now),
         attempts := job.attempts + 1, updatedAt := now)
  }

  function Renewed(job: Job, now: i64, until: i64): Job
  {
    job.(heartbeatAt := Some(now), leaseUntil := Some(until), updatedAt := now)
  }

  function Completed(job: Job, now: i64): Job
  {
    job.(state := Done, leaseOwner := None, leaseUntil := None, updatedAt := now)
  }

  function Requeued(job: Job, error: string, now: i64): Job
  {
    job.(state := Queued, availableAt := now, leaseOwner := None, leaseUntil := None, lastError := Some(error),
         updatedAt := now)
  }

  // ---- What every operation keeps ----

  /** A job and the workers that have claimed it, oldest claim first. */
  ghost predicate Sound(job: Job, claims: seq<string>)
  {
    job.attempts == |claims| && job.state != Failed &&
    (if job.state == Leased then
       claims != [] && job.leaseOwner == Some(claims[|claims| - 1]) && job.leaseUntil.Some?
     else job.leaseOwner.None? && job.leaseUntil.None?) &&
    (job.state == Done ==> claims != [])
  }

  /** The claims only grow, attempts never fall and a done job is never touched again. */
  ghost predicate Advances(jobs: map<string, Job>, claims: map<string, seq<string>>,
                           jobs': map<string, Job>, claims': map<string, seq<string>>)
  {
    jobs.Keys == claims.Keys && jobs'.Keys == claims'.Keys && jobs.Keys <= jobs'.Keys &&
    forall id :: id in jobs ==>
      claims[id] <= claims'[id] && jobs[id].attempts <= jobs'[id].attempts &&
      (jobs[id].state == Done ==> jobs'[id] == jobs[id] && claims'[id] == claims[id])
  }

  lemma {:induction false} AdvancesThrough(j0: map<string, Job>, c0: map<string, seq<string>>, j1: map<string, Job>,
                        c1: map<string, seq<string>>, j2: map<string, Job>, c2: map<string, seq<string>>)
    requires Advances(j0, c0, j1, c1) && Advances(j1, c1, j2, c2)
    ensures Advances(j0, c0, j2, c2)
  {
    forall id | id in j0
      ensures id in j2 && c0[id] <= c2[id] && j0[id].attempts <= j2[id].attempts
    {
      assert id in j1.Keys && id in j2.Keys;
    }
  }

  /** The latest claim of the job is the worker's. */
  ghost predicate LatestIs(claims: map<string, seq<string>>, id: string, worker: string)
  {
    id in claims && claims[id] != [] && claims[id][|claims[id]| - 1] == worker
  }

  /** One transaction of some host, with what it is called with, its clock and the rows it finds locked. */
  datatype Op =
    | Enqueue(id: string, kind: string, payload: string, now: i64)
    | Claim(worker: string, leaseMs: i64, now: i64, locked: set<string>)
    | Heartbeat(id: string, worker: string, leaseMs: i64, now: i64)
    | Complete(id: string, worker: string, now: i64)
    | Retry(id: string, worker: string, error: string, now: i64)

  predicate ClaimsFor(ops: seq<Op>, worker: string)
  {
    exists k :: 0 <= k < |ops| && ops[k].Claim? && ops[k].worker == worker
  }

  /** Every claim of a job added since was made by a worker that claims in `ops`. */
  ghost predicate AddedBy(ops: seq<Op>, claims: map<string, seq<string>>, claims': map<string, seq<string>>)
  {
    forall id, k :: id in claims && id in claims' && |claims[id]| <= k < |claims'[id]| ==> ClaimsFor(ops, claims'[id][k])
  }

  lemma {:induction false} AddedByMore(ops: seq<Op>, n: nat, c0: map<string, seq<string>>, c1: map<string, seq<string>>,
                                       c2: map<string, seq<string>>)
    requires n < |ops| && AddedBy(ops[..n], c0, c1) && AddedBy([ops[n]], c1, c2)
    requires forall id :: id in c0 ==> id in c1 && id in c2 && c1[id] <= c2[id]
    ensures AddedBy(ops[..n + 1], c0, c2)
  {
    forall id, k | id in c0 && |c0[id]| <= k < |c2[id]|
      ensures ClaimsFor(ops[..n + 1], c2[id][k])
    {
      if k < |c1[id]| {
        assert c1[id][k] == c2[id][k];
        var j :| 0 <= j < n && ops[..n][j].Claim? && ops[..n][j].worker == c1[id][k];
        assert ops[..n + 1][j] == ops[..n][j];
      } else {
        assert ops[..n + 1][n] == ops[n];
      }
    }
  }

  // ---- What a lease is for ----

  /** The lease of `worker` on the job ends at `until` or later. */
  predicate HeldUntil(job: Job, worker: string, until: i64)
  {
    job.state == Leased && job.leaseOwner == Some(worker) && job.leaseUntil.Some? && job.leaseUntil.value >= until
  }

  /** No transaction that could end or outlast such a lease: claims come before its end by their own clocks,
      and the worker itself neither gives the job back nor shortens the lease. */
  predicate Respects(op: Op, id: string, worker: string, until: int)
  {
    match op
    case Enqueue(_, _, _, _) => true
    case Claim(_, _, now, _) => now < until
    case Heartbeat(other, who, leaseMs, now) => other == id && who == worker ==> now + leaseMs >= until
    case Complete(_, _, _) => true
    case Retry(other, who, _, _) => !(other == id && who == worker)
  }

  predicate Completes(op: Op, id: string, worker: string) { op.Complete? && op.id == id && op.worker == worker }

  predicate AllRespect(ops: seq<Op>, id: string, worker: string, until: int)
  {
    ops == [] || (Respects(ops[|ops| - 1], id, worker, until) && AllRespect(ops[..|ops| - 1], id, worker, until))
  }

  predicate NoneCompletes(ops: seq<Op>, id: string, worker: string)
  {
    ops == [] || (!Completes(ops[|ops| - 1], id, worker) && NoneCompletes(ops[..|ops| - 1], id, worker))
  }

  /** The others respect the lease, and the worker completes the job in none of their transactions. */
  predicate LeaveAlone(ops: seq<Op>, id: string, worker: string, until: int)
  {
    AllRespect(ops, id, worker, until) && NoneCompletes(ops, id, worker)
  }

  /** The worker comes back for the job before its lease ends, and the others have left it alone. */
  predicate InTime(jobs: map<string, Job>, id: string, worker: string, until: i64, others: seq<Op>, now: i64)
  {
    id in jobs && HeldUntil(jobs[id], worker, until) && LeaveAlone(others, id, worker, until) && now < until
  }

  /** While its lease lasts a job is claimed by nobody; it stays leased, or the worker has completed it. */
  ghost predicate LeasesLast(ops: seq<Op>, jobs: map<string, Job>, claims: map<string, seq<string>>,
                             jobs': map<string, Job>, claims': map<string, seq<string>>)
  {
    forall id, worker, until: i64 ::
      id in jobs && HeldUntil(jobs[id], worker, until) && AllRespect(ops, id, worker, until) ==>
        id in jobs' && id in claims && id in claims' && claims'[id] == claims[id] &&
        (jobs'[id].state == Done || HeldUntil(jobs'[id], worker, until)) &&
        (NoneCompletes(ops, id, worker) ==> HeldUntil(jobs'[id], worker, until))
  }

  lemma {:induction false} LeasesLastOn(ops: seq<Op>, n: nat, j0: map<string, Job>, c0: map<string, seq<string>>,
                                        j1: map<string, Job>, c1: map<string, seq<string>>, j2: map<string, Job>,
                                        c2: map<string, seq<string>>)
    requires n < |ops| && Advances(j1, c1, j2, c2)
    requires LeasesLast(ops[..n], j0, c0, j1, c1) && LeasesLast([ops[n]], j1, c1, j2, c2)
    ensures LeasesLast(ops[..n + 1], j0, c0, j2, c2)
  {
    forall id, worker, until: i64 |
      id in j0 && HeldUntil(j0[id], worker, until) && AllRespect(ops[..n + 1], id, worker, until)
      ensures id in j2 && id in c0 && id in c2 && c2[id] == c0[id]
      ensures j2[id].state == Done || HeldUntil(j2[id], worker, until)
      ensures NoneCompletes(ops[..n + 1], id, worker) ==> HeldUntil(j2[id], worker, until)
    {
      FrontRespects(ops, n, id, worker, until);
      assert id in j1.Keys && id in c1;
    }
  }

  lemma {:induction false} FrontRespects(ops: seq<Op>, n: nat, id: string, worker: string, until: i64)
    requires n < |ops| && AllRespect(ops[..n + 1], id, worker, until)
    ensures AllRespect(ops[..n], id, worker, until) && AllRespect([ops[n]], id, worker, until)
    ensures NoneCompletes(ops[..n + 1], id, worker) ==>
              NoneCompletes(ops[..n], id, worker) && NoneCompletes([ops[n]], id, worker)
  {
    assert ops[..n + 1][..n] == ops[..n] && [ops[n]][..0] == [];
  }

  /** A row a claim at `now` may take, in the row's own fields. */
  predicate Takable(job: Job, now: i64)
  {
    job.availableAt <= now &&
    match job.state
    case Queued => true
    case Leased => job.leaseUntil.Some? && !(now < job.leaseUntil.value)
    case Done => false
    case Failed => false
  }

  lemma {:induction false} EligibleIsTakable(job: Job, now: i64)
    ensures Eligible(job, now) <==> Takable(job, now)
  {
  }

  /** What a transaction of the holder other than completing makes of its job. */
  function Updated(op: Op, job: Job): Job
    requires op.Heartbeat? ==> op.leaseMs > 0 && op.now + op.leaseMs <= I64_MAX
  {
    match op
    case Heartbeat(_, _, leaseMs, now) => Renewed(job, now, now + leaseMs)
    case Retry(_, _, error, now) => Requeued(job, error, now)
    case _ => job
  }

  /** Nothing less than this respect will do: whatever else may be done to a job, leased until `until` and
      available by then, lets somebody take it, before the lease's end when its holder does it. */
  lemma {:induction false} DisrespectFrees(op: Op, id: string, job: Job, worker: string, until: i64) returns (at: i64)
    requires job.state == Leased && job.leaseOwner == Some(worker) && job.leaseUntil == Some(until)
    requires !Respects(op, id, worker, until) && job.availableAt <= op.now
    requires op.Heartbeat? ==> op.leaseMs > 0 && op.now < until
    requires op.Retry? ==> op.now < until
    ensures Takable(Updated(op, job), at) && if op.Claim? then at == op.now else at < until
  {
    at := if op.Heartbeat? then op.now + op.leaseMs else op.now;
  }

  /** Unlocked, takable, and created before every other such row. */
  ghost predicate FirstInLine(jobs: map<string, Job>, id: string, now: i64, locked: set<string>)
  {
    id in jobs && id !in locked && Takable(jobs[id], now) &&
    forall other :: other in jobs && other != id && other !in locked && Takable(jobs[other], now) ==>
      jobs[id].createdAt < jobs[other].createdAt
  }

  /** A row that a claim cannot answer. */
  predicate Unclaimable(job: Job, parses: string -> bool) { !parses(job.payload) || job.attempts == I64_MAX }

  ghost predicate IsOldest(jobs: map<string, Job>, oldest: string, now: i64, locked: set<string>)
  {
    oldest in jobs && oldest !in locked && Eligible(jobs[oldest], now) &&
    forall id :: id in jobs && id !in locked && Eligible(jobs[id], now) ==> jobs[oldest].createdAt <= jobs[id].createdAt
  }

  /** The row a claim took and what it answered. */
  ghost predicate Claimed(jobs: map<string, Job>, claims: map<string, seq<string>>, jobs': map<string, Job>,
                          claims': map<string, seq<string>>, worker: string, now: i64, job: LeasedJob)
  {
    job.id in jobs && job.id in claims && jobs[job.id].attempts < I64_MAX &&
    jobs' == jobs[job.id := Taken(jobs[job.id], worker, now, job.leaseUntil)] &&
    claims' == claims[job.id := claims[job.id] + [worker]] &&
    job.kind == jobs[job.id].kind && job.payload == jobs[job.id].payload && job.attempts == |claims[job.id]| + 1
  }

  /** What a claim answers and does, in the fields of the rows. It refuses only a lease that does not end in
      range and rows it cannot answer; it finds nothing exactly when every unlocked job is done, not yet
      available or leased past `now`; and it takes the first in line. */
  ghost predicate ClaimTold(jobs: map<string, Job>, jobs': map<string, Job>, worker: string, leaseMs: i64, now: i64,
                            locked: set<string>, parses: string -> bool, r: Answer<Option<LeasedJob>>)
  {
    var inRange := leaseMs > 0 && now + leaseMs <= I64_MAX;
    (!inRange ==> r.Err?) &&
    (r.Err? && inRange ==> exists id :: IsOldest(jobs, id, now, locked) && Unclaimable(jobs[id], parses)) &&
    (inRange ==> (r == Ok(None) <==> NothingToTake(jobs, now, locked))) &&
    (forall id :: r.Ok? && FirstInLine(jobs, id, now, locked) ==> r.value.Some? && r.value.value.id == id) &&
    (r.Ok? && r.value.Some? ==>
       r.value.value.id in jobs && r.value.value.id !in locked &&
       var row := jobs[r.value.value.id];
       Takable(row, now) && row.attempts < I64_MAX && inRange &&
       jobs' == jobs[r.value.value.id := row.(
         state := Leased, leaseOwner := Some(worker), leaseUntil := Some(now + leaseMs), heartbeatAt := Some(now),
         attempts := row.attempts + 1, updatedAt := now)])
  }

  ghost predicate NothingToTake(jobs: map<string, Job>, now: i64, locked: set<string>)
  {
    forall id :: id in jobs && id !in locked ==>
      jobs[id].state == Done || jobs[id].availableAt > now ||
      (jobs[id].state == Leased && jobs[id].leaseUntil.Some? && jobs[id].leaseUntil.value > now)
  }

  ghost predicate AllSound(jobs: map<string, Job>, claims: map<string, seq<string>>)
  {
    jobs.Keys == claims.Keys && forall id :: id in jobs ==> Sound(jobs[id], claims[id])
  }

  lemma {:induction false} NothingIsTold(jobs: map<string, Job>, claims: map<string, seq<string>>, now: i64,
                                         locked: set<string>)
    requires AllSound(jobs, claims)
    ensures NothingToTake(jobs, now, locked) <==> forall id :: id in jobs && Eligible(jobs[id], now) ==> id in locked
  {
    forall id | id in jobs
      ensures Eligible(jobs[id], now) <==>
                !(jobs[id].state == Done || jobs[id].availableAt > now ||
                  (jobs[id].state == Leased && jobs[id].leaseUntil.Some? && jobs[id].leaseUntil.value > now))
    {
      assert Sound(jobs[id], claims[id]);
    }
  }

  lemma {:induction false} OldestIsFirst(jobs: map<string, Job>, id: string, oldest: string, now: i64,
                                         locked: set<string>)
    requires FirstInLine(jobs, id, now, locked) && IsOldest(jobs, oldest, now, locked)
    ensures oldest == id
  {
    EligibleIsTakable(jobs[id], now);
    EligibleIsTakable(jobs[oldest], now);
  }

  lemma {:induction false} FirstIsEligible(jobs: map<string, Job>, id: string, now: i64, locked: set<string>)
    requires FirstInLine(jobs, id, now, locked)
    ensures Eligible(jobs[id], now) && id !in locked
  {
    EligibleIsTakable(jobs[id], now);
  }

  lemma {:induction false} TakenIsTold(jobs: map<string, Job>, claims: map<string, seq<string>>, id: string,
                                       job: LeasedJob, worker: string, leaseMs: i64, now: i64, locked: set<string>,
                                       parses: string -> bool)
    requires AllSound(jobs, claims) && IsOldest(jobs, id, now, locked) && jobs[id].attempts < I64_MAX && job.id == id
    requires leaseMs > 0 && now + leaseMs <= I64_MAX
    ensures ClaimTold(jobs, jobs[id := Taken(jobs[id], worker, now, now + leaseMs)], worker, leaseMs, now, locked, parses,
                      Ok(Some(job)))
  {
    NothingIsTold(jobs, claims, now, locked);
    EligibleIsTakable(jobs[id], now);
    forall other | FirstInLine(jobs, other, now, locked) ensures other == id {
      OldestIsFirst(jobs, other, id, now, locked);
    }
  }

  /** An update of one row leaves the leases of other rows, and its own as the transaction allows. */
  lemma {:induction false} UpdateLasts(op: Op, jobs: map<string, Job>, claims: map<string, seq<string>>, target: string,
                                       row: Job)
    requires jobs.Keys == claims.Keys && target in jobs
    requires forall worker, until: i64 ::
               HeldUntil(jobs[target], worker, until) && Respects(op, target, worker, until) ==>
                 if Completes(op, target, worker) then row.state == Done else HeldUntil(row, worker, until)
    ensures LeasesLast([op], jobs, claims, jobs[target := row], claims)
  {
    forall id, worker, until: i64 | id in jobs && HeldUntil(jobs[id], worker, until) && AllRespect([op], id, worker, until)
      ensures jobs[target := row][id].state == Done || HeldUntil(jobs[target := row][id], worker, until)
      ensures NoneCompletes([op], id, worker) ==> HeldUntil(jobs[target := row][id], worker, until)
    {
      assert [op][..0] == [];
    }
  }

  lemma {:induction false} NothingEnds(op: Op, jobs: map<string, Job>, claims: map<string, seq<string>>)
    requires jobs.Keys == claims.Keys
    ensures LeasesLast([op], jobs, claims, jobs, claims)
  {
  }

  /** A claim takes no job whose lease has not ended by its clock. */
  lemma {:induction false} ClaimLasts(op: Op, jobs: map<string, Job>, claims: map<string, seq<string>>, target: string,
                                      row: Job, log: seq<string>)
    requires jobs.Keys == claims.Keys && target in jobs && op.Claim? && Takable(jobs[target], op.now)
    ensures LeasesLast([op], jobs, claims, jobs[target := row], claims[target := log])
  {
    forall id, worker, until: i64 | id in jobs && HeldUntil(jobs[id], worker, until) && AllRespect([op], id, worker, until)
      ensures id != target
    {
      assert [op][..0] == [];
    }
  }

  /** The lease was found gone. */
  predicate Lost(r: Pass) { r == LostBeforeWork || r == LostBeforeDone || r == LostBeforeRecord }

  /** How the claim at the beginning of a pass can end it. */
  ghost predicate ClaimEnds(jobs: map<string, Job>, worker: string, leaseMs: i64, now: i64, locked: set<string>,
                            parses: string -> bool, r: Pass)
  {
    var inRange := leaseMs > 0 && now + leaseMs <= I64_MAX;
    (!inRange ==> r == NotClaimed) &&
    (r == NotClaimed && inRange ==> exists id :: IsOldest(jobs, id, now, locked) && Unclaimable(jobs[id], parses)) &&
    (inRange ==> (r == Nothing <==> NothingToTake(jobs, now, locked)))
  }

  /** A pass that has a job ends as it may. */
  lemma {:induction false} ClaimGoesOn(jobs: map<string, Job>, worker: string, leaseMs: i64, now: i64, locked: set<string>,
                                       parses: string -> bool, begun: Pass, r: Pass)
    requires ClaimEnds(jobs, worker, leaseMs, now, locked, parses, begun)
    requires begun != NotClaimed && begun != Nothing && r != NotClaimed && r != Nothing
    ensures ClaimEnds(jobs, worker, leaseMs, now, locked, parses, r)
  {
  }

  lemma {:induction false} CalmPass(r: Pass, id: string, kind: string, worker: string, until: i64, leaseMs: i64,
                                    now: (i64, i64), rebuilt: bool, found: (map<string, Job>, map<string, Job>),
                                    others: (seq<Op>, seq<Op>))
    requires PassTold(r, id, kind, worker, leaseMs, now, rebuilt, found)
    requires LeaveAlone(others.0, id, worker, until) && now.0 < until ==> LeasedTo(found.0, id, worker, now.0)
    requires r != LostBeforeWork && LeaveAlone(others.1, id, worker, now.0 + leaseMs) && now.1 < now.0 + leaseMs ==>
               LeasedTo(found.1, id, worker, now.1)
    ensures r != NotClaimed && r != Nothing && (Lost(r) ==> !Undisturbed(id, worker, until, leaseMs, now, others))
  {
  }

  /** How a pass ends that has claimed a job: lost if the renewal, or the record, finds the lease gone, and
      otherwise with the record of the work. */
  ghost predicate PassTold(r: Pass, id: string, kind: string, worker: string, leaseMs: i64, now: (i64, i64), rebuilt: bool,
                           found: (map<string, Job>, map<string, Job>))
  {
    var renewed := LeaseUntil(now.0, leaseMs).Ok? && LeasedTo(found.0, id, worker, now.0);
    var recorded := LeasedTo(found.1, id, worker, now.1);
    var well := kind == "reindex" && rebuilt;
    r == if !renewed then LostBeforeWork
         else if recorded then (if well then Processed else WorkFailed)
         else if well then LostBeforeDone else LostBeforeRecord
  }

  /** The record of the work: the job is done, or queued again at once with its error. The latest claim of it is
      the worker's. */
  ghost predicate Recorded(jobs: map<string, Job>, claims: map<string, seq<string>>, r: Pass, id: string, worker: string,
                           now: i64, failure: string)
  {
    id in jobs && LatestIs(claims, id, worker) &&
    if r == Processed then jobs[id].state == Done
    else jobs[id].state == Queued && jobs[id].availableAt == now && jobs[id].lastError == Some(failure)
  }

  /** The others leave the job alone as long as the worker holds it, first until `until` and then for its
      renewed lease, and the worker is in time. */
  predicate Undisturbed(id: string, worker: string, until: int, leaseMs: i64, now: (i64, i64),
                        others: (seq<Op>, seq<Op>))
  {
    until <= I64_MAX && LeaveAlone(others.0, id, worker, until) && now.0 < until && leaseMs > 0 && now.0 + leaseMs <= I64_MAX &&
    LeaveAlone(others.1, id, worker, now.0 + leaseMs) && now.1 < now.0 + leaseMs
  }

  /** No pass is lost that nobody disturbs. */
  predicate LostAsDisturbed(r: Pass, id: string, worker: string, until: int, leaseMs: i64, now: (i64, i64),
                            others: (seq<Op>, seq<Op>))
  {
    Lost(r) ==> !Undisturbed(id, worker, until, leaseMs, now, others)
  }

  class Queue {
    var jobs: map<string, Job>
    ghost var claims: map<string, seq<string>>

    ghost predicate Valid()
      reads this
    {
      AllSound(jobs, claims)
    }

    constructor ()
      ensures Valid() && jobs == map[]
    {
      jobs, claims := map[], map[];
    }

    /** The row is refused when the id is taken, which fresh ids never are. */
    method Enqueue(id: string, kind: string, payload: string, now: i64) returns (r: Answer<string>)
      requires Valid()
      modifies this
      ensures Valid() && Advances(old(jobs), old(claims), jobs, claims)
      ensures r == if id in old(jobs) then Err else Ok(id)
      ensures r.Err? ==> jobs == old(jobs) && claims == old(claims)
      ensures r.Ok? ==> jobs == old(jobs)[id := Job(kind, payload, Queued, 0, now, None, None, None, None, now, now)]
      ensures r.Ok? ==> claims == old(claims)[id := []]
    {
      if id in jobs { return Err; }
      jobs := jobs[id := Job(kind, payload, Queued, 0, now, None, None, None, None, now, now)];
      claims := claims[id := []];
      r := Ok(id);
    }

    /** The oldest of the rows a claim may take. Rows other transactions hold locked are skipped. */
    method Oldest(now: i64, locked: set<string>) returns (found: Option<string>)
      ensures found.None? <==> forall id :: id in jobs && Eligible(jobs[id], now) ==> id in locked
      ensures found.Some? ==> IsOldest(jobs, found.value, now, locked)
    {
      found := None;
      var rows := set id | id in jobs && id !in locked && Eligible(jobs[id], now);
      while rows != {}
        invariant forall id :: id in rows ==> id in jobs && id !in locked && Eligible(jobs[id], now)
        invariant found.Some? ==> found.value in jobs && found.value !in locked && Eligible(jobs[found.value], now)
        invariant forall id :: id in jobs && id !in locked && Eligible(jobs[id], now) ==>
                    id in rows || (found.Some? && jobs[found.value].createdAt <= jobs[id].createdAt)
      {
        var id :| id in rows;
        rows := rows - {id};
        if found.None? || jobs[id].createdAt < jobs[found.value].createdAt { found := Some(id); }
      }
    }

    /** A claim takes the oldest eligible row that is not locked, or refuses and changes nothing.
        `parses` tells whether a stored payload reads as JSON. */
    method Claim(worker: string, leaseMs: i64, now: i64, locked: set<string>, parses: string -> bool)
      returns (r: Answer<Option<LeasedJob>>)
      requires Valid()
      modifies this
      ensures Valid() && Advances(old(jobs), old(claims), jobs, claims)
      ensures LeasesLast([Op.Claim(worker, leaseMs, now, locked)], old(jobs), old(claims), jobs, claims)
      ensures LeaseUntil(now, leaseMs).Err? ==> r.Err?
      ensures r.Err? || r.value.None? ==> jobs == old(jobs) && claims == old(claims)
      ensures r == Ok(None) ==> forall id :: id in old(jobs) && Eligible(old(jobs)[id], now) ==> id in locked
      ensures ClaimTold(old(jobs), jobs, worker, leaseMs, now, locked, parses, r)
      ensures r.Ok? && r.value.Some? ==>
                IsOldest(old(jobs), r.value.value.id, now, locked) &&
                LeaseUntil(now, leaseMs) == Ok(r.value.value.leaseUntil) &&
                Claimed(old(jobs), old(claims), jobs, claims, worker, now, r.value.value)
    {
      ghost var op := Op.Claim(worker, leaseMs, now, locked);
      NothingEnds(op, jobs, claims);
      NothingIsTold(jobs, claims, now, locked);
      var until := LeaseUntil(now, leaseMs);
      if until.Err? { return Err; }
      var found := Oldest(now, locked);
      if found.None? {
        forall id | FirstInLine(jobs, id, now, locked) ensures Eligible(jobs[id], now) && id !in locked {
          FirstIsEligible(jobs, id, now, locked);
        }
        return Ok(None);
      }
      var id := found.value;
      var row := jobs[id];
      if !parses(row.payload) { return Err; }
      if row.attempts == I64_MAX { return Err; }
      EligibleIsTakable(row, now);
      ClaimLasts(op, jobs, claims, id, Taken(row, worker, now, until.value), claims[id] + [worker]);
      var job := Take(id, worker, now, until.value);
      TakenIsTold(old(jobs), old(claims), id, job, worker, leaseMs, now, locked, parses);
      r := Ok(Some(job));
    }

    /** The update of a claim. */
    method Take(id: string, worker: string, now: i64, until: i64) returns (job: LeasedJob)
      requires Valid() && id in jobs && jobs[id].attempts < I64_MAX && jobs[id].state != Done
      modifies this
      ensures Valid() && Advances(old(jobs), old(claims), jobs, claims) && job.id == id && job.leaseUntil == until
      ensures Claimed(old(jobs), old(claims), jobs, claims, worker, now, job)
    {
      var row := jobs[id];
      jobs := jobs[id := Taken(row, worker, now, until)];
      claims := claims[id := claims[id] + [worker]];
      job := LeasedJob(id, row.kind, row.payload, row.attempts + 1, until);
    }

    /** The one update all holders of a lease make. It goes through only under a lease that has not run out,
        which rules out any claim of the job by another since the latest one of this worker. */
    method UpdateLeased(id: string, worker: string, change: Job -> Job, now: i64) returns (held: bool)
      requires Valid()
      requires forall job, log :: Sound(job, log) && job.state == Leased ==>
                 Sound(change(job), log) && change(job).attempts == job.attempts
      modifies this`jobs
      ensures Valid() && Advances(old(jobs), claims, jobs, claims)
      ensures held <==> LeasedTo(old(jobs), id, worker, now)
      ensures held ==> LatestIs(claims, id, worker) && jobs == old(jobs)[id := change(old(jobs)[id])]
      ensures !held ==> jobs == old(jobs)
    {
      held := id in jobs && Holds(jobs[id], worker, now);
      if held { jobs := jobs[id := change(jobs[id])]; }
    }

    method Heartbeat(id: string, worker: string, leaseMs: i64, now: i64) returns (r: Answer<bool>)
      requires Valid()
      modifies this`jobs
      ensures Valid() && Advances(old(jobs), claims, jobs, claims)
      ensures r.Err? <==> LeaseUntil(now, leaseMs).Err?
      ensures r.Ok? ==> (r.value <==> LeasedTo(old(jobs), id, worker, now))
      ensures LeasesLast([Op.Heartbeat(id, worker, leaseMs, now)], old(jobs), claims, jobs, claims)
      ensures r == Ok(true) ==> LatestIs(claims, id, worker) && LeasedTo(jobs, id, worker, now)
      ensures r == Ok(true) ==>
                HeldUntil(jobs[id], worker, now + leaseMs) &&
                jobs == old(jobs)[id := old(jobs)[id].(
                  heartbeatAt := Some(now), leaseUntil := Some(now + leaseMs), updatedAt := now)]
      ensures r == Ok(true) ==> jobs == old(jobs)[id := Renewed(old(jobs)[id], now, LeaseUntil(now, leaseMs).value)]
      ensures r != Ok(true) ==> jobs == old(jobs)
    {
      ghost var op := Op.Heartbeat(id, worker, leaseMs, now);
      NothingEnds(op, jobs, claims);
      var until := LeaseUntil(now, leaseMs);
      if until.Err? { return Err; }
      if id in jobs && Holds(jobs[id], worker, now) {
        UpdateLasts(op, jobs, claims, id, Renewed(jobs[id], now, until.value));
      }
      var held := UpdateLeased(id, worker, (job: Job) => Renewed(job, now, until.value), now);
      r := Ok(held);
    }

    method Complete(id: string, worker: string, now: i64) returns (held: bool)
      requires Valid()
      modifies this`jobs
      ensures Valid() && Advances(old(jobs), claims, jobs, claims)
      ensures held <==> LeasedTo(old(jobs), id, worker, now)
      ensures LeasesLast([Op.Complete(id, worker, now)], old(jobs), claims, jobs, claims)
      ensures held ==> LatestIs(claims, id, worker) && jobs == old(jobs)[id := old(jobs)[id].(
                  state := Done, leaseOwner := None, leaseUntil := None, updatedAt := now)]
      ensures !held ==> jobs == old(jobs)
    {
      ghost var op := Op.Complete(id, worker, now);
      NothingEnds(op, jobs, claims);
      if id in jobs && Holds(jobs[id], worker, now) { UpdateLasts(op, jobs, claims, id, Completed(jobs[id], now)); }
      held := UpdateLeased(id, worker, (job: Job) => Completed(job, now), now);
    }

    method Retry(id: string, worker: string, error: string, now: i64) returns (held: bool)
      requires Valid()
      modifies this`jobs
      ensures Valid() && Advances(old(jobs), claims, jobs, claims)
      ensures held <==> LeasedTo(old(jobs), id, worker, now)
      ensures LeasesLast([Op.Retry(id, worker, error, now)], old(jobs), claims, jobs, claims)
      ensures held ==> LatestIs(claims, id, worker) && jobs == old(jobs)[id := old(jobs)[id].(
                  state := Queued, availableAt := now, leaseOwner := None, leaseUntil := None,
                  lastError := Some(error), updatedAt := now)]
      ensures !held ==> jobs == old(jobs)
    {
      ghost var op := Op.Retry(id, worker, error, now);
      NothingEnds(op, jobs, claims);
      if id in jobs && Holds(jobs[id], worker, now) { UpdateLasts(op, jobs, claims, id, Requeued(jobs[id], error, now)); }
      held := UpdateLeased(id, worker, (job: Job) => Requeued(job, error, now), now);
    }
  
    method Perform(op: Op, parses: string -> bool)
      requires Valid()
      modifies this
      ensures Valid() && Advances(old(jobs), old(claims), jobs, claims)
      ensures AddedBy([op], old(claims), claims) && LeasesLast([op], old(jobs), old(claims), jobs, claims)
    {
      match op
      case Enqueue(id, kind, payload, now) => var _ := Enqueue(id, kind, payload, now);
      case Claim(worker, leaseMs, now, locked) =>
        assert [op][0].Claim? && [op][0].worker == worker;
        var _ := Claim(worker, leaseMs, now, locked, parses);
      case Heartbeat(_, _, _, _) => Update(op);
      case Complete(_, _, _) => Update(op);
      case Retry(_, _, _, _) => Update(op);
    }

    method Update(op: Op)
      requires Valid() && !op.Enqueue? && !op.Claim?
      modifies this
      ensures Valid() && Advances(old(jobs), old(claims), jobs, claims) && claims == old(claims)
      ensures LeasesLast([op], old(jobs), claims, jobs, claims)
    {
      match op
      case Heartbeat(id, worker, leaseMs, now) => var _ := Heartbeat(id, worker, leaseMs, now);
      case Complete(id, worker, now) => var _ := Complete(id, worker, now);
      case Retry(id, worker, error, now) => var _ := Retry(id, worker, error, now);
    }

    /** Any run of transactions of any number of hosts with any clocks. */
    method Run(ops: seq<Op>, parses: string -> bool)
      requires Valid()
      modifies this
      ensures Valid() && Advances(old(jobs), old(claims), jobs, claims)
      ensures AddedBy(ops, old(claims), claims) && LeasesLast(ops, old(jobs), old(claims), jobs, claims)
    {
      for i := 0 to |ops|
        invariant Valid() && Advances(old(jobs), old(claims), jobs, claims)
        invariant AddedBy(ops[..i], old(claims), claims) && LeasesLast(ops[..i], old(jobs), old(claims), jobs, claims)
      {
        ghost var j, c := jobs, claims;
        Perform(ops[i], parses);
        AdvancesThrough(old(jobs), old(claims), j, c, jobs, claims);
        AddedByMore(ops, i, old(claims), c, claims);
        LeasesLastOn(ops, i, old(jobs), old(claims), j, c, jobs, claims);
      }
      assert ops[..|ops|] == ops;
    }

    /** Takes one job and works on it, while other hosts run anything between its transactions. `rebuilt`
        is how the work of a reindexing job went, `found` the rows its last two transactions found. */
    method ProcessOne(worker: string, leaseMs: i64, now: (i64, i64, i64), locked: set<string>, rebuilt: bool,
                      failure: string, others: (seq<Op>, seq<Op>), parses: string -> bool)
      returns (r: Pass, ghost taken: string, ghost found: (map<string, Job>, map<string, Job>))
      requires Valid()
      modifies this
      ensures Valid() && Advances(old(jobs), old(claims), jobs, claims)
      ensures ClaimEnds(old(jobs), worker, leaseMs, now.0, locked, parses, r)
      ensures r == NotClaimed || r == Nothing ==> jobs == old(jobs) && claims == old(claims)
      ensures r != NotClaimed && r != Nothing ==>
                IsOldest(old(jobs), taken, now.0, locked) &&
                PassTold(r, taken, old(jobs)[taken].kind, worker, leaseMs, (now.1, now.2), rebuilt, found)
      ensures r == Processed || r == WorkFailed ==> Recorded(jobs, claims, r, taken, worker, now.2, failure)
      ensures (r == Processed || r == WorkFailed) && !ClaimsFor(others.0, worker) && !ClaimsFor(others.1, worker) ==>
                claims[taken] == old(claims)[taken] + [worker]
      ensures LostAsDisturbed(r, taken, worker, now.0 + leaseMs, leaseMs, (now.1, now.2), others)
    {
      ghost var j0, c0 := jobs, claims;
      taken, found := "", (jobs, jobs);
      var job;
      r, job := Begin(worker, leaseMs, now.0, locked, parses);
      if job.None? { return; }
      taken := job.value.id;
      ghost var begun := r;
      r, found := Pursue(j0, c0, job.value, worker, leaseMs, (now.1, now.2), rebuilt, failure, others, parses,
                         now.0 + leaseMs);
      ClaimGoesOn(j0, worker, leaseMs, now.0, locked, parses, begun, r);
    }

    /** The claim of a pass; without a job it is the end of it. */
    method Begin(worker: string, leaseMs: i64, now: i64, locked: set<string>, parses: string -> bool)
      returns (r: Pass, job: Option<LeasedJob>)
      requires Valid()
      modifies this
      ensures Valid() && Advances(old(jobs), old(claims), jobs, claims)
      ensures job.None? ==> (r == NotClaimed || r == Nothing) && jobs == old(jobs) && claims == old(claims)
      ensures job.Some? ==> r != NotClaimed && r != Nothing
      ensures ClaimEnds(old(jobs), worker, leaseMs, now, locked, parses, r)
      ensures job.Some? ==>
                IsOldest(old(jobs), job.value.id, now, locked) && job.value.kind == old(jobs)[job.value.id].kind &&
                LatestIs(claims, job.value.id, worker) && claims[job.value.id] == old(claims)[job.value.id] + [worker] &&
                now + leaseMs <= I64_MAX && leaseMs > 0 && HeldUntil(jobs[job.value.id], worker, now + leaseMs)
    {
      var claimed := Claim(worker, leaseMs, now, locked, parses);
      if claimed.Err? { return NotClaimed, None; }
      if claimed.value.None? { return Nothing, None; }
      r, job := Processed, claimed.value;
    }

    /** A job claimed by the pass that began with `j0` and `c0` is pursued to its end. */
    method Pursue(ghost j0: map<string, Job>, ghost c0: map<string, seq<string>>, job: LeasedJob, worker: string,
                  leaseMs: i64, now: (i64, i64), rebuilt: bool, failure: string, others: (seq<Op>, seq<Op>),
                  parses: string -> bool, ghost until: i64)
      returns (r: Pass, ghost found: (map<string, Job>, map<string, Job>))
      requires Valid() && LatestIs(claims, job.id, worker) && job.id in jobs && HeldUntil(jobs[job.id], worker, until)
      requires Advances(j0, c0, jobs, claims) && job.id in c0 && claims[job.id] == c0[job.id] + [worker]
      modifies this
      ensures Valid() && Advances(j0, c0, jobs, claims)
      ensures PassTold(r, job.id, job.kind, worker, leaseMs, now, rebuilt, found)
      ensures r != NotClaimed && r != Nothing && LostAsDisturbed(r, job.id, worker, until, leaseMs, now, others)
      ensures r == Processed || r == WorkFailed ==> Recorded(jobs, claims, r, job.id, worker, now.1, failure)
      ensures (r == Processed || r == WorkFailed) && !ClaimsFor(others.0, worker) && !ClaimsFor(others.1, worker) ==>
                claims[job.id] == c0[job.id] + [worker]
    {
      ghost var j1, c1 := jobs, claims;
      r, found := RenewAndWork(job, worker, leaseMs, now, rebuilt, failure, others, parses, until);
      AdvancesThrough(j0, c0, j1, c1, jobs, claims);
      CalmPass(r, job.id, job.kind, worker, until, leaseMs, now, rebuilt, found, others);
    }

    /** The lease is renewed before any work is done, and the work recorded. */
    method RenewAndWork(job: LeasedJob, worker: string, leaseMs: i64, now: (i64, i64), rebuilt: bool, failure: string,
                  others: (seq<Op>, seq<Op>), parses: string -> bool, ghost until: i64)
      returns (r: Pass, ghost found: (map<string, Job>, map<string, Job>))
      requires Valid() && LatestIs(claims, job.id, worker)
      modifies this
      ensures Valid() && Advances(old(jobs), old(claims), jobs, claims)
      ensures PassTold(r, job.id, job.kind, worker, leaseMs, now, rebuilt, found)
      ensures InTime(old(jobs), job.id, worker, until, others.0, now.0) ==> LeasedTo(found.0, job.id, worker, now.0)
      ensures r != LostBeforeWork && LeaveAlone(others.1, job.id, worker, now.0 + leaseMs) && now.1 < now.0 + leaseMs ==>
                LeasedTo(found.1, job.id, worker, now.1)
      ensures r == Processed || r == WorkFailed ==> Recorded(jobs, claims, r, job.id, worker, now.1, failure)
      ensures (r == Processed || r == WorkFailed) && !ClaimsFor(others.0, worker) && !ClaimsFor(others.1, worker) ==>
                claims[job.id] == old(claims)[job.id]
    {
      ghost var j0, c0 := jobs, claims;
      var renewed;
      ghost var first, second;
      renewed, first := Renew(job.id, worker, leaseMs, now.0, others.0, parses, until);
      if !renewed { return LostBeforeWork, (first, first); }
      ghost var j1, c1 := jobs, claims;
      var well := job.kind == "reindex" && rebuilt;
      r, second := Work(job, worker, well, failure, now.1, others.1, parses, now.0 + leaseMs);
      found := (first, second);
      AdvancesThrough(j0, c0, j1, c1, jobs, claims);
    }

    /** The work on a job just leased, while others go on, and its record. */
    method Work(job: LeasedJob, worker: string, well: bool, failure: string, now: i64, others: seq<Op>,
                parses: string -> bool, ghost until: i64)
      returns (r: Pass, ghost found: map<string, Job>)
      requires Valid() && LatestIs(claims, job.id, worker)
      modifies this
      ensures Valid() && Advances(old(jobs), old(claims), jobs, claims)
      ensures r == Processed || r == WorkFailed <==> LeasedTo(found, job.id, worker, now)
      ensures InTime(old(jobs), job.id, worker, until, others, now) ==> r == Processed || r == WorkFailed
      ensures if well then r == Processed || r == LostBeforeDone else r == WorkFailed || r == LostBeforeRecord
      ensures r == Processed || r == WorkFailed ==> Recorded(jobs, claims, r, job.id, worker, now, failure)
      ensures (r == Processed || r == WorkFailed) && !ClaimsFor(others, worker) ==> claims[job.id] == old(claims)[job.id]
    {
      Run(others, parses);
      found := jobs;
      ghost var j, c := jobs, claims;
      r := Finish(job.id, worker, well, failure, now);
      AdvancesThrough(old(jobs), old(claims), j, c, jobs, claims);
      if r == Processed || r == WorkFailed { NobodyElse(others, old(claims), claims, job.id, worker); }
    }

    /** The renewal of a lease just claimed, after whatever others did meanwhile. */
    method Renew(id: string, worker: string, leaseMs: i64, now: i64, others: seq<Op>, parses: string -> bool,
                 ghost until: i64)
      returns (renewed: bool, ghost found: map<string, Job>)
      requires Valid() && LatestIs(claims, id, worker)
      modifies this
      ensures Valid() && Advances(old(jobs), old(claims), jobs, claims)
      ensures renewed <==> LeaseUntil(now, leaseMs).Ok? && LeasedTo(found, id, worker, now)
      ensures renewed ==> id in jobs && HeldUntil(jobs[id], worker, now + leaseMs)
      ensures InTime(old(jobs), id, worker, until, others, now) ==> LeasedTo(found, id, worker, now)
      ensures renewed ==> LatestIs(claims, id, worker)
      ensures renewed && !ClaimsFor(others, worker) ==> claims[id] == old(claims)[id]
    {
      Run(others, parses);
      found := jobs;
      ghost var j, c := jobs, claims;
      var beat := Heartbeat(id, worker, leaseMs, now);
      AdvancesThrough(old(jobs), old(claims), j, c, jobs, claims);
      renewed := beat == Ok(true);
      if renewed { NobodyElse(others, old(claims), claims, id, worker); }
    }

    /** Records how the work went, if the lease is still held. */
    method Finish(id: string, worker: string, well: bool, failure: string, now: i64) returns (r: Pass)
      requires Valid()
      modifies this`jobs
      ensures Valid() && Advances(old(jobs), claims, jobs, claims)
      ensures if well then r == Processed || r == LostBeforeDone else r == WorkFailed || r == LostBeforeRecord
      ensures r == LostBeforeDone || r == LostBeforeRecord ==> jobs == old(jobs)
      ensures r == Processed || r == WorkFailed <==> LeasedTo(old(jobs), id, worker, now)
      ensures r == Processed || r == WorkFailed ==> Recorded(jobs, claims, r, id, worker, now, failure)
    {
      var held: bool;
      if well {
        held := Complete(id, worker, now);
        r := if held then Processed else LostBeforeDone;
      } else {
        held := Retry(id, worker, failure, now);
        r := if held then WorkFailed else LostBeforeRecord;
      }
    }

    method QueueStatus() returns (s: Status)
      requires Valid()
      ensures s.total == |jobs| == s.queued + s.leased + s.done + s.failed
      ensures s.pending == s.queued + s.leased && s.failed == 0
      ensures s.queued == |In(jobs, Queued)| && s.leased == |In(jobs, Leased)| && s.done == |In(jobs, Done)|
      ensures |s.jobs| == |jobs| && InOrder(s.jobs)
      ensures forall row :: row in s.jobs <==> row.id in jobs && row == RowOf(row.id, jobs[row.id])
      ensures Grouped(s.jobs) && forall row :: row in s.jobs ==> row.id in jobs && Shows(row, jobs[row.id])
    {
      var rows := ListRows(jobs);
      var counts := CountStates(jobs);
      var queued, leased := Count(counts, Queued), Count(counts, Leased);
      var done, failed := Count(counts, Done), Count(counts, Failed);
      var total := Total(counts);
      StatesPartition(jobs);
      assert In(jobs, Failed) == {};
      s := Status(total, queued + leased, queued, leased, done, failed, rows);
    }
  }

  // ---- The listing ----

  function RowOf(id: string, job: Job): Row
  {
    Row(id, job.kind, job.state, job.attempts, job.availableAt, job.leaseOwner, job.leaseUntil, job.lastError,
        job.createdAt, job.updatedAt)
  }

  function Standing(state: State): nat
  {
    match state
    case Leased => 0
    case Queued => 1
    case Failed => 2
    case Done => 3
  }

  /** Jobs at work first, then the waiting, the failed and the done ones; in each of these the one touched
      last first. */
  predicate Above(a: Row, b: Row)
  {
    Standing(a.state) < Standing(b.state) ||
    (a.state == b.state && (a.updatedAt > b.updatedAt || (a.updatedAt == b.updatedAt && Lexicographic.Less(a.id, b.id))))
  }

  /** A row shows its job, all but the payload and the last heartbeat. */
  predicate Shows(row: Row, job: Job)
  {
    row.kind == job.kind && row.state == job.state && row.attempts == job.attempts &&
    row.availableAt == job.availableAt && row.leaseOwner == job.leaseOwner && row.leaseUntil == job.leaseUntil &&
    row.lastError == job.lastError && row.createdAt == job.createdAt && row.updatedAt == job.updatedAt
  }

  /** Leased jobs before queued ones, failed and done ones last, the latest update first in each group. */
  ghost predicate Grouped(rows: seq<Row>)
  {
    forall j, k :: 0 <= j < k < |rows| ==>
      var a, b := rows[j], rows[k];
      (b.state == Leased ==> a.state == Leased) && (b.state == Queued ==> a.state == Leased || a.state == Queued) &&
      (a.state == Done ==> b.state == Done) && (a.state == b.state ==> a.updatedAt >= b.updatedAt)
  }

  ghost predicate InOrder(rows: seq<Row>) { forall j, k :: 0 <= j < k < |rows| ==> Above(rows[j], rows[k]) }

  lemma {:induction false} AboveTotal(a: Row, b: Row)
    requires a.id != b.id
    ensures Above(a, b) || Above(b, a)
  {
    Lexicographic.Total(a.id, b.id);
  }

  lemma {:induction false} AboveTransitive(a: Row, b: Row, c: Row)
    requires Above(a, b) && Above(b, c)
    ensures Above(a, c)
  {
    if Lexicographic.Less(a.id, b.id) && Lexicographic.Less(b.id, c.id) {
      Lexicographic.Transitive(a.id, b.id, c.id);
      if a.id == c.id { Lexicographic.Antisymmetric(a.id, b.id); }
    }
  }

  /** The row that is listed first. */
  method Top(jobs: map<string, Job>, ids: set<string>) returns (top: string)
    requires ids != {} && ids <= jobs.Keys
    ensures top in ids && forall id :: id in ids && id != top ==> Above(RowOf(top, jobs[top]), RowOf(id, jobs[id]))
  {
    top :| top in ids;
    var rest := ids - {top};
    while rest != {}
      invariant rest <= ids && top in ids && top !in rest
      invariant forall id :: id in ids && id !in rest && id != top ==> Above(RowOf(top, jobs[top]), RowOf(id, jobs[id]))
    {
      var id :| id in rest;
      rest := rest - {id};
      AboveTotal(RowOf(top, jobs[top]), RowOf(id, jobs[id]));
      if Above(RowOf(id, jobs[id]), RowOf(top, jobs[top])) {
        forall other | other in ids && other !in rest && other != id
          ensures Above(RowOf(id, jobs[id]), RowOf(other, jobs[other]))
        {
          if other != top {
            AboveTransitive(RowOf(id, jobs[id]), RowOf(top, jobs[top]), RowOf(other, jobs[other]));
          }
        }
        top := id;
      }
    }
  }

  /** What has been listed, and that it stands above the rest. */
  ghost predicate Listing(jobs: map<string, Job>, rows: seq<Row>, rest: set<string>)
  {
    InOrder(rows) && rest <= jobs.Keys && |rows| + |rest| == |jobs.Keys| &&
    (forall row :: row in rows <==> row.id in jobs && row.id !in rest && row == RowOf(row.id, jobs[row.id])) &&
    forall row, id :: row in rows && id in rest ==> Above(row, RowOf(id, jobs[id]))
  }

  lemma {:induction false} ListingMore(jobs: map<string, Job>, rows: seq<Row>, rest: set<string>, id: string)
    requires Listing(jobs, rows, rest) && id in rest
    requires forall other :: other in rest && other != id ==> Above(RowOf(id, jobs[id]), RowOf(other, jobs[other]))
    ensures Listing(jobs, rows + [RowOf(id, jobs[id])], rest - {id})
  {
    assert |rest - {id}| == |rest| - 1;
    forall j, k | 0 <= j < k < |rows| + 1
      ensures Above((rows + [RowOf(id, jobs[id])])[j], (rows + [RowOf(id, jobs[id])])[k])
    {
      assert rows[j] in rows;
    }
  }

  method ListRows(jobs: map<string, Job>) returns (rows: seq<Row>)
    ensures |rows| == |jobs| && InOrder(rows)
    ensures forall row :: row in rows <==> row.id in jobs && row == RowOf(row.id, jobs[row.id])
  {
    rows := [];
    var rest := jobs.Keys;
    while rest != {}
      invariant Listing(jobs, rows, rest)
    {
      var id := Top(jobs, rest);
      ListingMore(jobs, rows, rest, id);
      rows := rows + [RowOf(id, jobs[id])];
      rest := rest - {id};
    }
  }

  ghost predicate Counted(counts: map<State, nat>, jobs: map<string, Job>, read: set<string>)
  {
    forall state :: Count(counts, state) == |In(jobs, state) * read|
  }

  lemma {:induction false} CountOne(counts: map<State, nat>, jobs: map<string, Job>, rows: set<string>, id: string)
    requires id in rows && rows <= jobs.Keys && Counted(counts, jobs, jobs.Keys - rows)
    ensures Counted(counts[jobs[id].state := Count(counts, jobs[id].state) + 1], jobs, jobs.Keys - (rows - {id}))
  {
    var read := jobs.Keys - rows;
    assert read + {id} == jobs.Keys - (rows - {id});
    forall state
      ensures |In(jobs, state) * (read + {id})| == |In(jobs, state) * read| + if jobs[id].state == state then 1 else 0
    {
      ReadOne(jobs, read, id, state);
    }
  }

  lemma {:induction false} AllCounted(counts: map<State, nat>, jobs: map<string, Job>)
    requires Counted(counts, jobs, jobs.Keys - {})
    ensures forall state :: Count(counts, state) == |In(jobs, state)|
  {
    assert jobs.Keys - {} == jobs.Keys;
    forall state
      ensures In(jobs, state) * jobs.Keys == In(jobs, state)
    {
    }
  }

  /** The jobs counted by state. */
  method CountStates(jobs: map<string, Job>) returns (counts: map<State, nat>)
    ensures forall state :: Count(counts, state) == |In(jobs, state)|
  {
    counts := map[];
    var rows := jobs.Keys;
    while rows != {}
      invariant rows <= jobs.Keys
      invariant Counted(counts, jobs, jobs.Keys - rows)
    {
      var id :| id in rows;
      CountOne(counts, jobs, rows, id);
      rows := rows - {id};
      counts := counts[jobs[id].state := Count(counts, jobs[id].state) + 1];
    }
    AllCounted(counts, jobs);
  }

  lemma {:induction false} DisjointSize(a: set<string>, b: set<string>)
    requires a !! b
    ensures |a + b| == |a| + |b|
  {
  }

  lemma {:induction false} ReadOne(jobs: map<string, Job>, read: set<string>, id: string, state: State)
    requires id in jobs && id !in read
    ensures |In(jobs, state) * (read + {id})| == |In(jobs, state) * read| + if jobs[id].state == state then 1 else 0
  {
    if jobs[id].state == state {
      assert In(jobs, state) * (read + {id}) == In(jobs, state) * read + {id};
    } else {
      assert In(jobs, state) * (read + {id}) == In(jobs, state) * read;
    }
  }

  lemma {:induction false} StatesPartition(jobs: map<string, Job>)
    ensures |jobs| == |In(jobs, Queued)| + |In(jobs, Leased)| + |In(jobs, Done)| + |In(jobs, Failed)|
  {
    var q, l, d, f := In(jobs, Queued), In(jobs, Leased), In(jobs, Done), In(jobs, Failed);
    assert jobs.Keys == q + l + d + f;
    assert |jobs| == |jobs.Keys|;
    DisjointSize(q, l);
    DisjointSize(q + l, d);
    DisjointSize(q + l + d, f);
  }

  /** Zero for a state that was never counted. */
  function Count(counts: map<State, nat>, state: State): nat { if state in counts then counts[state] else 0 }

  ghost function In(jobs: map<string, Job>, state: State): set<string>
  {
    set id | id in jobs && jobs[id].state == state
  }

  lemma {:induction false} NobodyElse(ops: seq<Op>, before: map<string, seq<string>>, after: map<string, seq<string>>,
                   id: string, worker: string)
    requires AddedBy(ops, before, after) && id in before && id in after && before[id] <= after[id]
    requires LatestIs(before, id, worker) && LatestIs(after, id, worker)
    ensures !ClaimsFor(ops, worker) ==> after[id] == before[id]
  {
    if |before[id]| < |after[id]| { assert ClaimsFor(ops, after[id][|after[id]| - 1]); }
  }

  /** The sum of the counted values. */
  method Total(counts: map<State, nat>) returns (total: nat)
    ensures total == Count(counts, Queued) + Count(counts, Leased) + Count(counts, Done) + Count(counts, Failed)
  {
    total := 0;
    var rest := counts.Keys;
    while rest != {}
      invariant rest <= counts.Keys
      invariant total == Left(counts, rest, Queued) + Left(counts, rest, Leased) +
                         Left(counts, rest, Done) + Left(counts, rest, Failed)
    {
      var state :| state in rest;
      assert state == Queued || state == Leased || state == Done || state == Failed;
      rest := rest - {state};
      total := total + counts[state];
    }
  }

  ghost function Left(counts: map<State, nat>, rest: set<State>, state: State): nat
  {
    if state in rest then 0 else Count(counts, state)
  }
}
