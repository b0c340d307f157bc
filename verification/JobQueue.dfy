/**
 * Claim-once job queue for candidate generation: a table of job rows that several workers update in
 * atomic statements, and the discipline each worker follows.
 */
module JobQueue {
  import opened Wrappers

  const MAX_GENERATION_ATTEMPTS := 3

  datatype JobStatus = PENDING | RUNNING | SUCCEEDED | FAILED

  datatype Job = Job(
    dataSource: nat,
    cluster: nat,
    status: JobStatus,
    attemptCount: nat,
    lastErrorCode: Option<string>,
    createdAt: int,
    startedAt: Option<int>,
    completedAt: Option<int>)

  type Table = map<nat, Job>

  predicate Active(job: Job) {
    job.status == PENDING || job.status == RUNNING
  }

  /** Another unfinished job of the same cluster: what the partial unique index looks for. */
  predicate OpenElsewhere(t: Table, id: nat, cluster: nat) {
    exists other :: other in t && other != id && t[other].cluster == cluster && Active(t[other])
  }

  ghost predicate OneOpenPerCluster(t: Table) {
    forall id :: id in t && Active(t[id]) ==> !OpenElsewhere(t, id, t[id].cluster)
  }

  // ---------------------------------------------------------------------------------------------
  // The statements

  function Inserted(t: Table, id: nat, dataSource: nat, cluster: nat, now: int): Table {
    t[id := Job(dataSource, cluster, PENDING, 0, None, now, None, None)]
  }

  predicate Claimable(t: Table, locked: set<nat>, id: nat) {
    && id in t && id !in locked
    && t[id].status == PENDING && t[id].attemptCount < MAX_GENERATION_ATTEMPTS
  }

  /** A claimable row that no claimable row is older than. */
  predicate Oldest(t: Table, locked: set<nat>, id: nat) {
    && Claimable(t, locked, id)
    && forall other :: other in t && Claimable(t, locked, other) ==> t[id].createdAt <= t[other].createdAt
  }

  function Claimed(t: Table, id: nat, now: int): Table
    requires id in t
  {
    t[id := t[id].(status := RUNNING, startedAt := Some(now), attemptCount := t[id].attemptCount + 1)]
  }

  function Finished(t: Table, id: nat, status: JobStatus, error: Option<string>, now: int): Table {
    if id in t then t[id := t[id].(status := status, completedAt := Some(now), lastErrorCode := error)] else t
  }

  /** What a job was queued for and how often it was claimed. */
  predicate SameClaims(a: Job, b: Job) {
    && a.dataSource == b.dataSource && a.cluster == b.cluster && a.attemptCount == b.attemptCount
    && a.createdAt == b.createdAt && a.startedAt == b.startedAt
  }

  /** No row but this one is changed or goes. */
  ghost predicate OthersKept(before: Table, after: Table, id: nat) {
    forall other :: other in before && other != id ==> other in after && after[other] == before[other]
  }

  lemma {:induction false} FinishedIs(t: Table, after: Table, id: nat, status: JobStatus, error: Option<string>, now: int)
    requires after.Keys == t.Keys && OthersKept(t, after, id)
    requires id in after ==>
      && after[id].status == status && after[id].lastErrorCode == error && after[id].completedAt == Some(now)
      && SameClaims(after[id], t[id])
    ensures after == Finished(t, id, status, error, now)
  {
    if id in t {
      assert after[id] == t[id].(status := status, completedAt := Some(now), lastErrorCode := error);
    }
  }

  /** Back to PENDING, or FAILED once the attempts are used up. */
  function ReleasedJob(job: Job, error: string, now: int): Job {
    if job.attemptCount >= MAX_GENERATION_ATTEMPTS
    then job.(status := FAILED, lastErrorCode := Some(error), completedAt := Some(now))
    else job.(status := PENDING, lastErrorCode := Some(error), completedAt := None)
  }

  function Released(t: Table, id: nat, error: string, now: int): Table {
    if id in t then t[id := ReleasedJob(t[id], error, now)] else t
  }

  /** Whether the index refuses a release because the cluster has another unfinished job. */
  predicate ReleaseConflicts(t: Table, id: nat) {
    && id in t && t[id].attemptCount < MAX_GENERATION_ATTEMPTS
    && OpenElsewhere(t, id, t[id].cluster)
  }

  class PostgresGenerationJobQueue {
    var jobs: Table

    constructor ()
      ensures jobs == map[]
    {
      jobs := map[];
    }

    /** `id` is the fresh identifier the database would generate. */
    method Enqueue(id: nat, dataSource: nat, cluster: nat, now: int) returns (job: Option<Job>)
      requires id !in jobs
      modifies this
      ensures job.None? <==> OpenElsewhere(old(jobs), id, cluster)
      ensures jobs == Effect(old(jobs), Step.Enqueue(id, dataSource, cluster, now))
      ensures job.None? ==> jobs == old(jobs)
      ensures job.Some? ==>
        && jobs.Keys == old(jobs).Keys + {id} && job.value == jobs[id] && OthersKept(old(jobs), jobs, id)
        && job.value.status == PENDING && job.value.attemptCount == 0
        && (job.value.dataSource, job.value.cluster, job.value.createdAt) == (dataSource, cluster, now)
        && job.value.startedAt.None? && job.value.completedAt.None? && job.value.lastErrorCode.None?
    {
      if OpenElsewhere(jobs, id, cluster) {
        return None;
      }
      jobs := Inserted(jobs, id, dataSource, cluster, now);
      return Some(jobs[id]);
    }

    /** Rows in `locked` are held by another transaction at this moment and are passed over. */
    method ClaimNext(locked: set<nat>, now: int) returns (claimed: Option<nat>)
      modifies this
      ensures claimed.None? ==> jobs == old(jobs)
      ensures claimed.None? <==> forall id :: id in old(jobs) && id !in locked && old(jobs)[id].status == PENDING ==>
        old(jobs)[id].attemptCount >= MAX_GENERATION_ATTEMPTS
      ensures claimed.Some? ==>
        && Oldest(old(jobs), locked, claimed.value)
        && (forall worker :: jobs == Effect(old(jobs), Step.Claim(worker, locked, claimed.value, now)))
        && jobs.Keys == old(jobs).Keys && OthersKept(old(jobs), jobs, claimed.value)
        && var was, job := old(jobs)[claimed.value], jobs[claimed.value];
        && was.status == PENDING && was.attemptCount < MAX_GENERATION_ATTEMPTS && claimed.value !in locked
        && job.status == RUNNING && job.attemptCount == was.attemptCount + 1 && job.startedAt == Some(now)
        && (job.dataSource, job.cluster, job.createdAt, job.lastErrorCode, job.completedAt)
           == (was.dataSource, was.cluster, was.createdAt, was.lastErrorCode, was.completedAt)
    {
      var claimable := set id | id in jobs && Claimable(jobs, locked, id);
      if claimable == {} {
        forall id | id in jobs ensures !Claimable(jobs, locked, id) {
          assert id !in claimable;
        }
        return None;
      }
      var best :| best in claimable;
      var remaining := claimable - {best};
      while remaining != {}
        invariant best in claimable && remaining <= claimable
        invariant forall id :: id in claimable - remaining ==> jobs[best].createdAt <= jobs[id].createdAt
        decreases remaining
      {
        var id :| id in remaining;
        if jobs[id].createdAt < jobs[best].createdAt {
          best := id;
        }
        remaining := remaining - {id};
      }
      forall id | id in jobs && Claimable(jobs, locked, id) ensures jobs[best].createdAt <= jobs[id].createdAt {
        assert id in claimable - remaining;
      }
      jobs := Claimed(jobs, best, now);
      return Some(best);
    }

    method Complete(id: nat, now: int)
      modifies this
      ensures forall worker :: jobs == Effect(old(jobs), Step.Complete(worker, id, now))
    {
      Finish(id, SUCCEEDED, None, now);
      FinishedIs(old(jobs), jobs, id, SUCCEEDED, None, now);
    }

    method Fail(id: nat, error: string, now: int)
      modifies this
      ensures forall worker :: jobs == Effect(old(jobs), Step.Fail(worker, id, error, now))
    {
      Finish(id, FAILED, Some(error), now);
      FinishedIs(old(jobs), jobs, id, FAILED, Some(error), now);
    }

    /** Ends the row as asked, as of now, and leaves its claims, its cluster and every other row alone. */
    method Finish(id: nat, status: JobStatus, error: Option<string>, now: int)
      modifies this
      ensures jobs.Keys == old(jobs).Keys && OthersKept(old(jobs), jobs, id)
      ensures id in jobs ==>
        && jobs[id].status == status && jobs[id].lastErrorCode == error && jobs[id].completedAt == Some(now)
        && SameClaims(jobs[id], old(jobs)[id])
      ensures (status == SUCCEEDED || status == FAILED) && OneOpenPerCluster(old(jobs)) ==> OneOpenPerCluster(jobs)
    {
      if id in jobs {
        if (status == SUCCEEDED || status == FAILED) && OneOpenPerCluster(jobs) {
          WriteKeepsIndex(jobs, id, jobs[id].(status := status, completedAt := Some(now), lastErrorCode := error));
        }
        jobs := jobs[id := jobs[id].(status := status, completedAt := Some(now), lastErrorCode := error)];
      }
    }

    method ReleaseForRetry(id: nat, error: string, now: int) returns (ok: bool)
      modifies this
      ensures !ok <==>
        && id in old(jobs) && old(jobs)[id].attemptCount < MAX_GENERATION_ATTEMPTS
        && OpenElsewhere(old(jobs), id, old(jobs)[id].cluster)
      ensures !ok ==> jobs == old(jobs)
      ensures forall worker :: jobs == Effect(old(jobs), Step.Release(worker, id, error, now))
      ensures jobs.Keys == old(jobs).Keys && OthersKept(old(jobs), jobs, id)
      ensures ok && id in jobs ==>
        && var was, job := old(jobs)[id], jobs[id];
        && SameClaims(job, was) && job.lastErrorCode == Some(error)
        && (job.status == PENDING <==> was.attemptCount < MAX_GENERATION_ATTEMPTS)
        && (job.status == FAILED <==> was.attemptCount >= MAX_GENERATION_ATTEMPTS)
        && job.completedAt == if was.attemptCount < MAX_GENERATION_ATTEMPTS then None else Some(now)
    {
      if ReleaseConflicts(jobs, id) {
        return false;
      }
      if id in jobs {
        jobs := jobs[id := ReleasedJob(jobs[id], error, now)];
      }
      return true;
    }
  }

  // ---------------------------------------------------------------------------------------------
  // Workers

  /** The table, and which worker is processing which job. */
  datatype World = World(jobs: Table, holds: set<(nat, nat)>)

  datatype Step =
    | Enqueue(id: nat, dataSource: nat, cluster: nat, now: int)
    | Claim(worker: nat, locked: set<nat>, id: nat, now: int)
    | Complete(worker: nat, id: nat, now: int)
    | Fail(worker: nat, id: nat, error: string, now: int)
    | Release(worker: nat, id: nat, error: string, now: int)
    | Crash(worker: nat)

  /** A claim takes what the queue hands out; a worker finishes or releases only what it claimed. */
  ghost predicate Enabled(w: World, step: Step) {
    match step
    case Enqueue(id, _, _, _) => id !in w.jobs
    case Claim(_, locked, id, _) => Oldest(w.jobs, locked, id)
    case Complete(worker, id, _) => (worker, id) in w.holds
    case Fail(worker, id, _, _) => (worker, id) in w.holds
    case Release(worker, id, _, _) => (worker, id) in w.holds
    case Crash(_) => true
  }

  /** What the statement of a step does to the table, whoever sends it. */
  function Effect(t: Table, step: Step): Table {
    match step
    case Enqueue(id, dataSource, cluster, now) =>
      if OpenElsewhere(t, id, cluster) then t else Inserted(t, id, dataSource, cluster, now)
    case Claim(_, _, id, now) => if id in t then Claimed(t, id, now) else t
    case Complete(_, id, now) => Finished(t, id, SUCCEEDED, None, now)
    case Fail(_, id, error, now) => Finished(t, id, FAILED, Some(error), now)
    case Release(_, id, error, now) => if ReleaseConflicts(t, id) then t else Released(t, id, error, now)
    case Crash(_) => t
  }

  function Next(w: World, step: Step): World {
    World(
      Effect(w.jobs, step),
      match step
      case Enqueue(_, _, _, _) => w.holds
      case Claim(worker, _, id, _) => if id in w.jobs then w.holds + {(worker, id)} else w.holds
      case Crash(worker) => set h | h in w.holds && h.0 != worker
      case _ => w.holds - {(step.worker, step.id)})
  }

  ghost predicate EnabledRun(w: World, steps: seq<Step>)
    decreases |steps|
  {
    steps != [] ==> Enabled(w, steps[0]) && EnabledRun(Next(w, steps[0]), steps[1..])
  }

  function Run(w: World, steps: seq<Step>): World
    decreases |steps|
  {
    if steps == [] then w else Run(Next(w, steps[0]), steps[1..])
  }

  ghost predicate HeldByOne(w: World) {
    && (forall h :: h in w.holds ==> h.1 in w.jobs && w.jobs[h.1].status == RUNNING)
    && (forall h, k :: h in w.holds && k in w.holds && h.1 == k.1 ==> h.0 == k.0)
  }

  ghost predicate AttemptsBounded(t: Table) {
    forall id :: id in t ==>
      t[id].attemptCount <= MAX_GENERATION_ATTEMPTS
      && (t[id].status == PENDING ==> t[id].attemptCount < MAX_GENERATION_ATTEMPTS)
  }

  ghost predicate Invariant(w: World) {
    OneOpenPerCluster(w.jobs) && HeldByOne(w) && AttemptsBounded(w.jobs)
  }

  /** Writing one row keeps the index as long as it does not open a job its cluster already has open. */
  lemma {:induction false} WriteKeepsIndex(t: Table, id: nat, job: Job)
    requires OneOpenPerCluster(t)
    requires id in t ==> job.cluster == t[id].cluster
    requires Active(job) ==> !OpenElsewhere(t, id, job.cluster)
    ensures OneOpenPerCluster(t[id := job])
  {
    var after := t[id := job];
    forall a, b | a in after && b in after && a != b && Active(after[a]) && Active(after[b])
      ensures after[a].cluster != after[b].cluster
    {
      assert a != id ==> !OpenElsewhere(t, a, t[a].cluster);
      assert b != id ==> !OpenElsewhere(t, b, t[b].cluster);
    }
  }

  /** A worker that holds a job can always release it: no other job of the cluster can be open. */
  lemma {:induction false} HeldReleaseNeverConflicts(w: World, worker: nat, id: nat)
    requires Invariant(w) && (worker, id) in w.holds
    ensures id in w.jobs && !ReleaseConflicts(w.jobs, id)
  {
    var h := (worker, id);
    assert h in w.holds && w.jobs[h.1].status == RUNNING;
  }

  lemma {:induction false} NextKeepsIndex(w: World, step: Step)
    requires Invariant(w) && Enabled(w, step)
    ensures OneOpenPerCluster(Next(w, step).jobs)
  {
    match step
    case Enqueue(id, dataSource, cluster, now) =>
      if !OpenElsewhere(w.jobs, id, cluster) {
        WriteKeepsIndex(w.jobs, id, Inserted(w.jobs, id, dataSource, cluster, now)[id]);
      }
    case Claim(_, _, id, now) => WriteKeepsIndex(w.jobs, id, Claimed(w.jobs, id, now)[id]);
    case Complete(worker, id, now) =>
      HeldReleaseNeverConflicts(w, worker, id);
      WriteKeepsIndex(w.jobs, id, Finished(w.jobs, id, SUCCEEDED, None, now)[id]);
    case Fail(worker, id, error, now) =>
      HeldReleaseNeverConflicts(w, worker, id);
      WriteKeepsIndex(w.jobs, id, Finished(w.jobs, id, FAILED, Some(error), now)[id]);
    case Release(worker, id, error, now) =>
      HeldReleaseNeverConflicts(w, worker, id);
      WriteKeepsIndex(w.jobs, id, ReleasedJob(w.jobs[id], error, now));
    case Crash(_) =>
  }

  lemma {:induction false} NextKeepsHolds(w: World, step: Step)
    requires Invariant(w) && Enabled(w, step)
    ensures HeldByOne(Next(w, step)) && AttemptsBounded(Next(w, step).jobs)
  {
    hide OneOpenPerCluster, OpenElsewhere;
    if step.Complete? || step.Fail? || step.Release? {
      var h := (step.worker, step.id);
      assert h in w.holds;
      assert forall k :: k in w.holds && k.1 == step.id ==> k == h;
    }
  }

  /** Any interleaving of any number of workers, with crashes anywhere. */
  lemma {:induction false} RunKeepsInvariant(w: World, steps: seq<Step>)
    requires Invariant(w) && EnabledRun(w, steps)
    ensures Invariant(Run(w, steps))
    decreases |steps|
  {
    if steps != [] {
      NextKeepsIndex(w, steps[0]);
      NextKeepsHolds(w, steps[0]);
      RunKeepsInvariant(Next(w, steps[0]), steps[1..]);
    }
  }

  /** So no waiting job is ever stranded: each is claimable by the next poll that does not skip it. */
  lemma {:induction false} PendingIsClaimable(steps: seq<Step>, id: nat)
    requires EnabledRun(World(map[], {}), steps)
    ensures var t := Run(World(map[], {}), steps).jobs;
      id in t && t[id].status == PENDING ==> Claimable(t, {}, id)
  {
    RunKeepsInvariant(World(map[], {}), steps);
  }

  // ---------------------------------------------------------------------------------------------
  // Attempts are claims, and work per job is bounded

  function Claims(steps: seq<Step>, id: nat): nat {
    if steps == [] then 0
    else (if steps[0].Claim? && steps[0].id == id then 1 else 0) + Claims(steps[1..], id)
  }

  predicate Touches(step: Step, id: nat) {
    !step.Enqueue? && !step.Crash? && step.id == id
  }

  function Touched(steps: seq<Step>, id: nat): nat {
    if steps == [] then 0 else (if Touches(steps[0], id) then 1 else 0) + Touched(steps[1..], id)
  }

  function Attempts(t: Table, id: nat): nat {
    if id in t then t[id].attemptCount else 0
  }

  /** How many more steps a job can take. */
  function Potential(t: Table, id: nat): int {
    if id !in t then 2 * MAX_GENERATION_ATTEMPTS
    else if t[id].status == PENDING then 2 * (MAX_GENERATION_ATTEMPTS - t[id].attemptCount)
    else if t[id].status == RUNNING then 2 * (MAX_GENERATION_ATTEMPTS - t[id].attemptCount) + 1
    else 0
  }

  lemma {:induction false} StepCounts(w: World, step: Step, id: nat)
    requires Invariant(w) && Enabled(w, step)
    ensures Attempts(Next(w, step).jobs, id) == Attempts(w.jobs, id) + if step.Claim? && step.id == id then 1 else 0
    ensures Potential(Next(w, step).jobs, id) <= Potential(w.jobs, id) - if Touches(step, id) then 1 else 0
  {
    if step.Complete? || step.Fail? || step.Release? {
      HeldReleaseNeverConflicts(w, step.worker, step.id);
      var h := (step.worker, step.id);
      assert h in w.holds && w.jobs[h.1].status == RUNNING;
    }
    hide OneOpenPerCluster, OpenElsewhere;
  }

  lemma {:induction false} RunCounts(w: World, steps: seq<Step>, id: nat)
    requires Invariant(w) && EnabledRun(w, steps)
    ensures Attempts(Run(w, steps).jobs, id) == Attempts(w.jobs, id) + Claims(steps, id)
    ensures Touched(steps, id) + Potential(Run(w, steps).jobs, id) <= Potential(w.jobs, id)
    decreases |steps|
  {
    if steps != [] {
      StepCounts(w, steps[0], id);
      NextKeepsIndex(w, steps[0]);
      NextKeepsHolds(w, steps[0]);
      RunCounts(Next(w, steps[0]), steps[1..], id);
    }
  }

  /** From an empty table: attempts are exactly claims, at most three, in at most six steps per job. */
  lemma {:induction false} WorkPerJobIsBounded(steps: seq<Step>, id: nat)
    requires EnabledRun(World(map[], {}), steps)
    ensures Attempts(Run(World(map[], {}), steps).jobs, id) == Claims(steps, id) <= MAX_GENERATION_ATTEMPTS
    ensures Touched(steps, id) <= 2 * MAX_GENERATION_ATTEMPTS
  {
    var start := World(map[], {});
    RunKeepsInvariant(start, steps);
    RunCounts(start, steps, id);
    var t := Run(start, steps).jobs;
    assert id in t ==> t[id].attemptCount <= MAX_GENERATION_ATTEMPTS;
  }

  // ---------------------------------------------------------------------------------------------
  // What a job's status says

  /** Where a step that touches a job, or queues it, leaves it, given how it found it. */
  ghost predicate LeavesAs(step: Step, was: Option<Job>, now: Job) {
    match step
    case Enqueue(_, dataSource, cluster, _) =>
      was.None? && now.status == PENDING && now.attemptCount == 0 && (now.dataSource, now.cluster) == (dataSource, cluster)
    case Claim(_, _, _, _) => now.status == RUNNING && was.Some? && now.attemptCount == was.value.attemptCount + 1
    case Complete(_, _, _) => now.status == SUCCEEDED && now.lastErrorCode.None?
    case Fail(_, _, error, _) => now.status == FAILED && now.lastErrorCode == Some(error)
    case Release(_, _, error, _) =>
      && was.Some? && now.lastErrorCode == Some(error)
      && now.status == if was.value.attemptCount < MAX_GENERATION_ATTEMPTS then PENDING else FAILED
    case Crash(_) => false
  }

  function At(t: Table, id: nat): Option<Job> {
    if id in t then Some(t[id]) else None
  }

  /** The step is about this job: it touches it, or it is what queued it. */
  predicate Concerns(t: Table, step: Step, id: nat) {
    Touches(step, id) || (step.Enqueue? && step.id == id && !OpenElsewhere(t, id, step.cluster))
  }

  lemma {:induction false} StepLeaves(w: World, step: Step, id: nat)
    requires Invariant(w) && Enabled(w, step)
    ensures var was, now := At(w.jobs, id), At(Next(w, step).jobs, id);
      if Concerns(w.jobs, step, id) then now.Some? && LeavesAs(step, was, now.value) else now == was
  {
    if step.Complete? || step.Fail? || step.Release? {
      HeldReleaseNeverConflicts(w, step.worker, step.id);
    }
    hide OneOpenPerCluster, OpenElsewhere, HeldByOne, AttemptsBounded;
  }

  lemma {:induction false} RunEnds(w: World, steps: seq<Step>)
    requires steps != [] && EnabledRun(w, steps)
    ensures var n := |steps| - 1;
      && EnabledRun(w, steps[..n]) && Enabled(Run(w, steps[..n]), steps[n])
      && Run(w, steps) == Next(Run(w, steps[..n]), steps[n])
    decreases |steps|
  {
    hide Enabled, Next;
    var n := |steps| - 1;
    if n > 0 {
      RunEnds(Next(w, steps[0]), steps[1..]);
      assert steps[1..][..n - 1] == steps[..n][1..];
      assert steps[1..][n - 1] == steps[n];
    } else {
      assert steps[1..] == [];
      assert Run(Next(w, steps[0]), []) == Next(w, steps[0]);
    }
  }

  /** Step `k` is the last of the run that concerns the job. */
  ghost predicate LastConcern(w: World, steps: seq<Step>, id: nat, k: nat) {
    && k < |steps| && Concerns(Run(w, steps[..k]).jobs, steps[k], id)
    && forall j :: k < j < |steps| ==> !Concerns(Run(w, steps[..j]).jobs, steps[j], id)
  }

  lemma {:induction false} LastConcernStep(w: World, steps: seq<Step>, id: nat, k: nat)
    requires steps != []
    ensures var n := |steps| - 1;
      LastConcern(w, steps, id, k) <==>
        if k == n then Concerns(Run(w, steps[..n]).jobs, steps[n], id)
        else LastConcern(w, steps[..n], id, k) && !Concerns(Run(w, steps[..n]).jobs, steps[n], id)
  {
    hide Concerns, Run;
    var n := |steps| - 1;
    assert forall j :: 0 <= j < n ==> steps[..n][..j] == steps[..j];
  }

  /**
   * Over any interleaving: a job is as the last step that concerned it left it, claimed, completed,
   * failed or given back; and as it was if none did.
   */
  lemma {:induction false} StatusIsLastStep(w: World, steps: seq<Step>, id: nat)
    requires Invariant(w) && EnabledRun(w, steps)
    ensures forall k: nat :: LastConcern(w, steps, id, k) ==>
      id in Run(w, steps).jobs && LeavesAs(steps[k], At(Run(w, steps[..k]).jobs, id), Run(w, steps).jobs[id])
    ensures (forall k: nat :: !LastConcern(w, steps, id, k)) ==> At(Run(w, steps).jobs, id) == At(w.jobs, id)
    decreases |steps|
  {
    hide LeavesAs, Invariant, Enabled, Next, Concerns;
    if steps != [] {
      var n := |steps| - 1;
      RunEnds(w, steps);
      var before := Run(w, steps[..n]);
      RunKeepsInvariant(w, steps[..n]);
      StepLeaves(before, steps[n], id);
      StatusIsLastStep(w, steps[..n], id);
      hide Run, EnabledRun;
      forall k: nat
        ensures LastConcern(w, steps, id, k) <==>
          if k == n then Concerns(before.jobs, steps[n], id)
          else LastConcern(w, steps[..n], id, k) && !Concerns(before.jobs, steps[n], id)
        ensures k < n ==> steps[..n][..k] == steps[..k]
      {
        LastConcernStep(w, steps, id, k);
      }
      if !Concerns(before.jobs, steps[n], id) {
        assert At(Run(w, steps).jobs, id) == At(before.jobs, id);
      }
    }
  }

  // ---------------------------------------------------------------------------------------------
  // A crash

  ghost predicate Orphaned(w: World, id: nat) {
    id in w.jobs && w.jobs[id].status == RUNNING && forall h :: h in w.holds ==> h.1 != id
  }

  lemma {:induction false} CrashOrphans(w: World, worker: nat, id: nat)
    requires Invariant(w) && (worker, id) in w.holds
    ensures Orphaned(Next(w, Crash(worker)), id)
  {
    var h := (worker, id);
    assert h in w.holds && w.jobs[h.1].status == RUNNING;
    forall k | k in Next(w, Crash(worker)).holds ensures k.1 != id {
      assert k.1 == h.1 ==> k.0 == h.0;
    }
  }

  /**
   * A job whose worker crashed stays RUNNING in every continuation, is never handed out again, and
   * keeps its cluster from being queued again.
   */
  lemma {:induction false} OrphanIsNeverReclaimed(w: World, steps: seq<Step>, id: nat)
    requires Invariant(w) && Orphaned(w, id) && EnabledRun(w, steps)
    ensures Orphaned(Run(w, steps), id) && Run(w, steps).jobs[id] == w.jobs[id]
    ensures Claims(steps, id) == 0
    ensures forall other :: other != id ==> OpenElsewhere(Run(w, steps).jobs, other, w.jobs[id].cluster)
    decreases |steps|
  {
    if steps != [] {
      var next := Next(w, steps[0]);
      NextKeepsIndex(w, steps[0]);
      NextKeepsHolds(w, steps[0]);
      OrphanStep(w, steps[0], id);
      OrphanIsNeverReclaimed(next, steps[1..], id);
    } else {
      forall other | other != id ensures OpenElsewhere(w.jobs, other, w.jobs[id].cluster) {
        assert id in w.jobs && id != other && Active(w.jobs[id]);
      }
    }
  }

  lemma {:induction false} OrphanStep(w: World, step: Step, id: nat)
    requires Invariant(w) && Orphaned(w, id) && Enabled(w, step)
    ensures Orphaned(Next(w, step), id) && Next(w, step).jobs[id] == w.jobs[id]
    ensures !Touches(step, id)
  {
    hide OneOpenPerCluster, OpenElsewhere;
    if step.Complete? || step.Fail? || step.Release? {
      var h := (step.worker, step.id);
      assert h in w.holds;
    }
  }

  /** A worker's crash ends the retries of the job it held: no continuation hands that job out. */
  lemma {:induction false} CrashEndsRetries(w: World, worker: nat, id: nat, steps: seq<Step>)
    requires Invariant(w) && (worker, id) in w.holds && EnabledRun(Next(w, Crash(worker)), steps)
    ensures Claims(steps, id) == 0
  {
    CrashOrphans(w, worker, id);
    NextKeepsIndex(w, Crash(worker));
    NextKeepsHolds(w, Crash(worker));
    OrphanIsNeverReclaimed(Next(w, Crash(worker)), steps, id);
  }

  // ---------------------------------------------------------------------------------------------
  // When a running job is handed out again

  ghost predicate HandedOutAgain(w: World, id: nat) {
    exists steps :: EnabledRun(w, steps) && Claims(steps, id) > 0
  }

  /** The worker gives the job back, and a poll that finds every other pending row locked takes it. */
  lemma {:induction false} ReleasedIsHandedOut(w: World, worker: nat, id: nat)
    requires Invariant(w) && (worker, id) in w.holds && id in w.jobs
    requires w.jobs[id].attemptCount < MAX_GENERATION_ATTEMPTS
    ensures HandedOutAgain(w, id)
  {
    HeldReleaseNeverConflicts(w, worker, id);
    var release := Release(worker, id, "", 0);
    var next := Next(w, release);
    assert next.jobs == Released(w.jobs, id, "", 0);
    hide OneOpenPerCluster, OpenElsewhere;
    var others := set other | other in next.jobs && other != id;
    var claim := Claim(worker, others, id, 0);
    assert Claimable(next.jobs, others, id);
    assert Enabled(next, claim);
    TwoSteps(w, release, claim);
    assert EnabledRun(w, [release, claim]) && Claims([release, claim], id) > 0 by {
      assert [release, claim][1..] == [claim];
    }
  }

  lemma {:induction false} TwoSteps(w: World, first: Step, second: Step)
    requires Enabled(w, first) && Enabled(Next(w, first), second)
    ensures EnabledRun(w, [first, second])
  {
    hide Enabled, Next;
    assert [first, second][1..] == [second] && [second][1..] == [];
    assert EnabledRun(Next(Next(w, first), second), []);
    assert EnabledRun(Next(w, first), [second]);
  }

  /**
   * A running job is handed out again in some continuation if and only if a live worker still holds
   * it and it has attempts left.
   */
  lemma {:induction false} RunningJobReturnsExactly(w: World, id: nat)
    requires Invariant(w) && id in w.jobs && w.jobs[id].status == RUNNING
    ensures HandedOutAgain(w, id)
       <==> (exists worker: nat :: (worker, id) in w.holds) && w.jobs[id].attemptCount < MAX_GENERATION_ATTEMPTS
  {
    if HandedOutAgain(w, id) {
      var steps :| EnabledRun(w, steps) && Claims(steps, id) > 0;
      if forall worker: nat :: (worker, id) !in w.holds {
        forall h | h in w.holds ensures h.1 != id {
          assert h == (h.0, h.1);
        }
        OrphanIsNeverReclaimed(w, steps, id);
      }
      RunCounts(w, steps, id);
      RunKeepsInvariant(w, steps);
      AttemptsAtMost(Run(w, steps).jobs, id);
    }
    if worker: nat :| (worker, id) in w.holds && w.jobs[id].attemptCount < MAX_GENERATION_ATTEMPTS {
      ReleasedIsHandedOut(w, worker, id);
    }
  }

  lemma {:induction false} AttemptsAtMost(t: Table, id: nat)
    requires AttemptsBounded(t)
    ensures Attempts(t, id) <= MAX_GENERATION_ATTEMPTS
  {
  }
}
