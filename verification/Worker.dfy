// internal/service/worker.go: one poll of a worker goroutine against the job queue.
module Worker {
  import opened Common
  import opened JobQueue

  // What a handler's Execute returns.
  datatype Outcome = Succeeded(result: Option<string>) | Errored(msg: string)

  // What the Complete or Fail call processOne makes for a dequeued job of the given type does to
  // the job's row. The dequeued copy supplies the type; the update acts on the stored row.
  function Settle(handlers: set<string>, jobType: string, row: Job, outcome: Outcome, now: Time): Job {
    if jobType !in handlers then FailJob(row, "unknown job type: " + jobType, now)
    else match outcome
      case Errored(msg) => FailJob(row, msg, now)
      case Succeeded(result) => CompleteJob(row, result, now)
  }

  class Worker {
    const handlers: set<string>
    const concurrency: nat

    constructor (handlers: set<string>, concurrency: int)
      ensures this.handlers == handlers
      ensures this.concurrency >= 1 && (concurrency >= 1 ==> this.concurrency == concurrency)
    {
      this.handlers := handlers;
      this.concurrency := if concurrency < 1 then 1 else concurrency;
    }

    // dequeued and settled say whether the two database calls succeed; execute stands for the
    // registered handlers. A failed Complete or Fail leaves the row running.
    method ProcessOne(queue: JobQueue, locked: set<Uuid>, startNow: Time, dequeued: bool,
                      execute: Job -> Outcome, settleNow: Time, settled: bool)
      returns (picked: Option<Uuid>)
      modifies queue
      ensures picked.None? ==> queue.jobs == old(queue.jobs)
      ensures picked.None? && dequeued ==> forall id :: !Ready(queue.jobs, locked, startNow, id)
      ensures picked.Some? ==>
                var id := picked.value;
                && dequeued
                && IsNext(old(queue.jobs), locked, startNow, id)
                && var started := StartJob(old(queue.jobs)[id], startNow);
                   queue.jobs == old(queue.jobs)[id :=
                     if settled then Settle(handlers, started.jobType, started, execute(started), settleNow)
                       else started]
      // Column by column: the job is completed with the handler's result, or carries the handler's text
      // or the unknown type's and is failed on its last attempt and due again otherwise.
      ensures picked.Some? && settled ==>
                var id, before := picked.value, old(queue.jobs)[picked.value];
                var attempts := before.attempts + 1;
                var started := before.(status := Running, startedAt := Some(startNow), attempts := attempts);
                && (before.jobType in handlers && execute(started).Succeeded? ==>
                      queue.jobs[id] == started.(status := Completed, result := execute(started).result,
                                                 completedAt := Some(settleNow)))
                && (before.jobType !in handlers || execute(started).Errored? ==>
                      var text := if before.jobType !in handlers then "unknown job type: " + before.jobType
                                  else execute(started).msg;
                      queue.jobs[id]
                      == if attempts >= before.maxAttempts
                         then started.(error := text, status := Failed, completedAt := Some(settleNow))
                         else started.(error := text, status := Pending, completedAt := None,
                                       scheduledAt := settleNow + 30 * Pow2(attempts - 1) * SECOND))
    {
      if !dequeued {
        return None;
      }
      var next := queue.Dequeue(locked, startNow);
      if next.None? {
        return None;
      }
      var (id, job) := next.value;
      BackoffIsExponential(job.attempts);
      if job.jobType !in handlers {
        if settled {
          queue.Fail(id, "unknown job type: " + job.jobType, settleNow);
        }
        return Some(id);
      }
      match execute(job) {
        case Errored(msg) =>
          if settled {
            queue.Fail(id, msg, settleNow);
          }
        case Succeeded(result) =>
          if settled {
            queue.Complete(id, result, settleNow);
          }
      }
      return Some(id);
    }
  }
}
