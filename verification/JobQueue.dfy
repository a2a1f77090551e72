// internal/adapter/postgres/job_queue.go: the jobs table and the statements that change it.
module JobQueue {
  import opened Common

  const DAY: int := 86_400 * SECOND
  const DEFAULT_MAX_ATTEMPTS: nat := 3

  datatype Status = Pending | Running | Completed | Failed

  datatype Job = Job(
    tenant: Uuid,
    jobType: string,
    payload: string,
    status: Status,
    result: Option<string>,
    error: string,
    attempts: nat,
    maxAttempts: nat,
    scheduledAt: Time,
    startedAt: Option<Time>,
    completedAt: Option<Time>,
    createdAt: Time)

  type Jobs = map<Uuid, Job>

  predicate Terminal(job: Job) {
    job.status == Completed || job.status == Failed
  }

  // 30 s doubled per attempt. power(2, -1) is 0.5 in PostgreSQL, hence 15 s at attempts = 0.
  function Backoff(attempts: nat): (delay: int)
    ensures delay >= 15 * SECOND
    ensures attempts >= 1 ==> delay >= 30 * SECOND
  {
    if attempts == 0 then 15 * SECOND
    else if attempts == 1 then 30 * SECOND
    else 2 * Backoff(attempts - 1)
  }

  function Pow2(n: nat): (p: nat)
    ensures p >= 1
  {
    if n == 0 then 1 else 2 * Pow2(n - 1)
  }

  lemma {:induction false} BackoffIsExponential(k: nat)
    requires k > 0
    ensures Backoff(k) == 30 * Pow2(k - 1) * SECOND
  {
    if k > 1 {
      BackoffIsExponential(k - 1);
    }
  }

  // INSERT INTO jobs: the columns the statement leaves out take the table's defaults.
  function NewJob(tenant: Uuid, jobType: string, payload: Option<string>, now: Time): Job {
    Job(tenant, jobType, if payload.None? then "{}" else payload.value, Pending, None, "",
        0, DEFAULT_MAX_ATTEMPTS, now, None, None, now)
  }

  function StartJob(job: Job, now: Time): Job {
    job.(status := Running, startedAt := Some(now), attempts := job.attempts + 1)
  }

  function CompleteJob(job: Job, result: Option<string>, now: Time): Job {
    job.(status := Completed, result := result, completedAt := Some(now))
  }

  function FailJob(job: Job, errMsg: string, now: Time): Job {
    if job.attempts >= job.maxAttempts then
      job.(error := errMsg, status := Failed, completedAt := Some(now))
    else
      job.(error := errMsg, status := Pending, scheduledAt := now + Backoff(job.attempts), completedAt := None)
  }

  // WHERE status IN ('completed', 'failed') AND completed_at < now() - days
  predicate Expired(job: Job, olderThanDays: int, now: Time) {
    Terminal(job) && job.completedAt.Some? && job.completedAt.value < now - olderThanDays * DAY
  }

  function ExpiredIds(jobs: Jobs, olderThanDays: int, now: Time): set<Uuid> {
    set id | id in jobs && Expired(jobs[id], olderThanDays, now)
  }

  // What SKIP LOCKED leaves of the due pending rows.
  predicate Ready(jobs: Jobs, locked: set<Uuid>, now: Time, id: Uuid) {
    id in jobs && id !in locked && jobs[id].status == Pending && jobs[id].scheduledAt <= now
  }

  // The row that ORDER BY scheduled_at LIMIT 1 may return; ties are left open.
  ghost predicate IsNext(jobs: Jobs, locked: set<Uuid>, now: Time, id: Uuid) {
    && Ready(jobs, locked, now, id)
    && forall other :: Ready(jobs, locked, now, other) ==> jobs[id].scheduledAt <= jobs[other].scheduledAt
  }

  lemma {:induction false} EarliestExists(jobs: Jobs, ids: set<Uuid>) returns (first: Uuid)
    requires ids != {} && ids <= jobs.Keys
    ensures first in ids && forall id :: id in ids ==> jobs[first].scheduledAt <= jobs[id].scheduledAt
  {
    first :| first in ids;
    if ids != {first} {
      assert ids - {first} != {};
      var other := EarliestExists(jobs, ids - {first});
      if jobs[other].scheduledAt < jobs[first].scheduledAt {
        first := other;
      }
    }
  }

  // Each method is one transaction; now is the transaction's now(). Rows locked by the
  // open transactions of other sessions are passed to Dequeue.
  class JobQueue {
    var jobs: Jobs

    method Enqueue(id: Uuid, tenant: Uuid, jobType: string, payload: Option<string>, now: Time)
      requires id !in jobs
      modifies this
      ensures jobs == old(jobs)[id := NewJob(tenant, jobType, payload, now)]
    {
      var body := payload;
      if body.None? {
        body := Some("{}");
      }
      jobs := jobs[id := Job(tenant, jobType, body.value, Pending, None, "", 0, DEFAULT_MAX_ATTEMPTS,
                             now, None, None, now)];
    }

    method Dequeue(locked: set<Uuid>, now: Time) returns (picked: Option<(Uuid, Job)>)
      modifies this
      ensures picked.None? ==> jobs == old(jobs) && forall id :: !Ready(jobs, locked, now, id)
      ensures picked.Some? ==>
                var (id, job) := picked.value;
                && IsNext(old(jobs), locked, now, id)
                && job == StartJob(old(jobs)[id], now)
                && jobs == old(jobs)[id := job]
    {
      var ready := set id | id in jobs && Ready(jobs, locked, now, id);
      if ready == {} {
        assert forall id :: Ready(jobs, locked, now, id) ==> id in ready;
        return None;
      }
      ghost var first := EarliestExists(jobs, ready);
      var id :| id in ready && forall other :: other in ready ==> jobs[id].scheduledAt <= jobs[other].scheduledAt;
      var job := jobs[id];
      job := job.(status := Running, startedAt := Some(now), attempts := job.attempts + 1);
      jobs := jobs[id := job];
      return Some((id, job));
    }

    method Complete(id: Uuid, result: Option<string>, now: Time)
      modifies this
      ensures jobs == if id in old(jobs) then old(jobs)[id := CompleteJob(old(jobs)[id], result, now)] else old(jobs)
    {
      if id in jobs {
        jobs := jobs[id := jobs[id].(status := Completed, result := result, completedAt := Some(now))];
      }
    }

    method Fail(id: Uuid, errMsg: string, now: Time)
      modifies this
      ensures jobs == if id in old(jobs) then old(jobs)[id := FailJob(old(jobs)[id], errMsg, now)] else old(jobs)
    {
      if id in jobs {
        var job := jobs[id];
        var exhausted := job.attempts >= job.maxAttempts;
        var status := if exhausted then Failed else Pending;
        var scheduledAt := if exhausted then job.scheduledAt else now + Backoff(job.attempts);
        var completedAt := if exhausted then Some(now) else None;
        jobs := jobs[id := job.(error := errMsg, status := status, scheduledAt := scheduledAt,
                                completedAt := completedAt)];
      }
    }

    method Cleanup(olderThanDays: int, now: Time) returns (affected: nat)
      modifies this
      ensures jobs == old(jobs) - ExpiredIds(old(jobs), olderThanDays, now)
      ensures |old(jobs)| == |jobs| + affected
    {
      var expired := ExpiredIds(jobs, olderThanDays, now);
      assert jobs.Keys == (jobs.Keys - expired) + expired;
      assert (jobs - expired).Keys == jobs.Keys - expired;
      jobs := jobs - expired;
      affected := |expired|;
    }
  }
}
