// How much work a run of the job system can hold, and how long a due job can be passed over.
module JobProgress {
  import opened Common
  import opened Counting
  import opened JobQueue
  import opened Worker
  import opened JobSystem

  // ---- Termination ----

  // Starts and settlements a row still has in it.
  ghost function Weight(job: Job): int {
    match job.status
    case Pending => 2 * (job.maxAttempts - job.attempts)
    case Running => 2 * (job.maxAttempts - job.attempts) + 1
    case _ => 0
  }

  ghost function Total(jobs: Jobs, ids: set<Uuid>): int
    requires ids <= jobs.Keys
  {
    if ids == {} then 0 else var id :| id in ids; Weight(jobs[id]) + Total(jobs, ids - {id})
  }

  lemma {:induction false} TotalSplit(jobs: Jobs, ids: set<Uuid>, id: Uuid)
    requires ids <= jobs.Keys && id in ids
    ensures Total(jobs, ids) == Weight(jobs[id]) + Total(jobs, ids - {id})
    decreases |ids|
  {
    var first :| first in ids && Total(jobs, ids) == Weight(jobs[first]) + Total(jobs, ids - {first});
    if first != id {
      TotalSplit(jobs, ids - {first}, id);
      TotalSplit(jobs, ids - {id}, first);
      assert ids - {first} - {id} == ids - {id} - {first};
    }
  }

  lemma {:induction false} TotalFrame(jobs: Jobs, jobs': Jobs, ids: set<Uuid>)
    requires ids <= jobs.Keys && ids <= jobs'.Keys
    requires forall id :: id in ids ==> jobs[id] == jobs'[id]
    ensures Total(jobs, ids) == Total(jobs', ids)
    decreases |ids|
  {
    if ids != {} {
      var id :| id in ids;
      TotalSplit(jobs, ids, id);
      TotalSplit(jobs', ids, id);
      TotalFrame(jobs, jobs', ids - {id});
    }
  }

  lemma {:induction false} TotalNonNegative(s: System, ids: set<Uuid>)
    requires RowsOk(s) && ids <= s.jobs.Keys
    ensures Total(s.jobs, ids) >= 0
    decreases |ids|
  {
    if ids != {} {
      var id :| id in ids;
      assert RowOk(s.jobs[id], s.clock);
      TotalSplit(s.jobs, ids, id);
      TotalNonNegative(s, ids - {id});
    }
  }

  ghost function Remaining(s: System): int {
    Total(s.jobs, s.jobs.Keys)
  }

  lemma RowChange(jobs: Jobs, id: Uuid, job: Job)
    requires id in jobs
    ensures Total(jobs[id := job], jobs[id := job].Keys) == Total(jobs, jobs.Keys) - Weight(jobs[id]) + Weight(job)
  {
    var jobs' := jobs[id := job];
    assert jobs'.Keys == jobs.Keys;
    TotalSplit(jobs, jobs.Keys, id);
    TotalSplit(jobs', jobs.Keys, id);
    TotalFrame(jobs, jobs', jobs.Keys - {id});
  }

  lemma RowInsert(jobs: Jobs, id: Uuid, job: Job)
    requires id !in jobs
    ensures Total(jobs[id := job], jobs[id := job].Keys) == Total(jobs, jobs.Keys) + Weight(job)
  {
    var jobs' := jobs[id := job];
    TotalSplit(jobs', jobs'.Keys, id);
    assert jobs'.Keys - {id} == jobs.Keys;
    TotalFrame(jobs, jobs', jobs.Keys);
  }

  // Cleanup removes only rows of weight zero.
  lemma {:induction false} WeightlessRemoval(jobs: Jobs, ids: set<Uuid>, gone: set<Uuid>)
    requires gone <= ids <= jobs.Keys
    requires forall id :: id in gone ==> Terminal(jobs[id])
    ensures Total(jobs, ids - gone) == Total(jobs, ids)
    decreases |gone|
  {
    if gone == {} {
      assert ids - gone == ids;
    } else {
      var id :| id in gone;
      TotalSplit(jobs, ids, id);
      WeightlessRemoval(jobs, ids - {id}, gone - {id});
      assert ids - {id} - (gone - {id}) == ids - gone;
    }
  }

  function Work(step: Step): nat {
    if step.Commit? || step.Finish? then 1 else 0
  }

  function Arrivals(step: Step): nat {
    if step.Enqueue? then 1 else 0
  }

  function CountWork(steps: seq<Step>): nat {
    if |steps| == 0 then 0 else Work(steps[0]) + CountWork(steps[1..])
  }

  function CountArrivals(steps: seq<Step>): nat {
    if |steps| == 0 then 0 else Arrivals(steps[0]) + CountArrivals(steps[1..])
  }

  lemma CommitUsesUp(s: System, w: nat)
    requires Inv(s) && Enabled(s, Commit(w))
    ensures Remaining(Next(s, Commit(w))) < Remaining(s)
  {
    var id := s.workers[w].id;
    assert HeldOk(s, s.workers[w]);
    RowChange(s.jobs, id, StartJob(s.jobs[id], s.workers[w].now));
  }

  lemma FinishUsesUp(s: System, w: nat, outcome: Outcome)
    requires Inv(s) && Enabled(s, Finish(w, outcome))
    ensures Remaining(Next(s, Finish(w, outcome))) < Remaining(s)
  {
    var Executing(id, job) := s.workers[w];
    assert HeldOk(s, s.workers[w]) && RowOk(s.jobs[id], s.clock);
    RowChange(s.jobs, id, Settle(s.handlers, job.jobType, s.jobs[id], outcome, s.clock));
  }

  lemma CleanupKeepsRemaining(s: System, days: int)
    ensures Remaining(Next(s, Cleanup(days))) == Remaining(s)
  {
    var gone := ExpiredIds(s.jobs, days, s.clock);
    var jobs' := s.jobs - gone;
    WeightlessRemoval(s.jobs, s.jobs.Keys, gone);
    assert jobs'.Keys == s.jobs.Keys - gone;
    TotalFrame(s.jobs, jobs', jobs'.Keys);
  }

  lemma EnqueueAddsSix(s: System, id: Uuid, tenant: Uuid, jobType: string, payload: Option<string>)
    requires Inv(s) && Enabled(s, Enqueue(id, tenant, jobType, payload))
    ensures Remaining(Next(s, Enqueue(id, tenant, jobType, payload))) == Remaining(s) + 2 * DEFAULT_MAX_ATTEMPTS
  {
    RowInsert(s.jobs, id, NewJob(tenant, jobType, payload, s.clock));
  }

  lemma OthersKeepRows(s: System, step: Step)
    requires Enabled(s, step) && (step.Tick? || step.Lock? || step.Abort? || step.Abandon?)
    ensures Remaining(Next(s, step)) == Remaining(s)
  {
    assert Next(s, step).jobs == s.jobs;
  }

  // Each committed dequeue, completion and failure strictly lowers what remains; nothing but a
  // new job raises it.
  lemma StepUsesUp(s: System, step: Step)
    requires Inv(s) && Enabled(s, step)
    ensures Remaining(Next(s, step)) + Work(step) <= Remaining(s) + 2 * DEFAULT_MAX_ATTEMPTS * Arrivals(step)
  {
    match step
    case Enqueue(id, tenant, jobType, payload) => EnqueueAddsSix(s, id, tenant, jobType, payload);
    case Commit(w) => CommitUsesUp(s, w);
    case Finish(w, outcome) => FinishUsesUp(s, w, outcome);
    case Cleanup(days) => CleanupKeepsRemaining(s, days);
    case _ => OthersKeepRows(s, step);
  }

  // Any run holds at most the work its starting state has left, plus six steps per new job: with
  // no new jobs, only finitely many dequeues, completions and failures happen.
  lemma {:induction false} WorkIsBounded(s: System, steps: seq<Step>)
    requires Inv(s) && IsRun(s, steps)
    ensures CountWork(steps) <= Remaining(s) + 2 * DEFAULT_MAX_ATTEMPTS * CountArrivals(steps)
    decreases |steps|
  {
    if |steps| == 0 {
      TotalNonNegative(s, s.jobs.Keys);
    } else {
      StepUsesUp(s, steps[0]);
      NextKeepsInv(s, steps[0]);
      WorkIsBounded(Next(s, steps[0]), steps[1..]);
    }
  }

  // ---- Bounded overtaking ----

  // The pending jobs that can be dequeued while job id waits: those already locked, and those
  // scheduled no later.
  ghost function Ahead(s: System, id: Uuid): set<Uuid>
    requires id in s.jobs
  {
    set other | other in s.jobs && other != id && s.jobs[other].status == Pending
                && (other in LockedRows(s) || s.jobs[other].scheduledAt <= s.jobs[id].scheduledAt)
  }

  ghost predicate Waiting(s: System, id: Uuid) {
    id in s.jobs && s.jobs[id].status == Pending && id !in LockedRows(s) && s.jobs[id].scheduledAt <= s.clock
  }

  ghost predicate NeverLocks(steps: seq<Step>, id: Uuid) {
    forall k :: 0 <= k < |steps| && steps[k].Lock? ==> steps[k].id != id
  }

  function CountCommits(steps: seq<Step>): nat {
    if |steps| == 0 then 0 else (if steps[0].Commit? then 1 else 0) + CountCommits(steps[1..])
  }

  // Jobs enqueued at the very instant job id is scheduled for.
  ghost function CountTies(s: System, steps: seq<Step>, at: Time): nat
    requires IsRun(s, steps)
    decreases |steps|
  {
    if |steps| == 0 then 0
    else (if steps[0].Enqueue? && s.clock == at then 1 else 0) + CountTies(Next(s, steps[0]), steps[1..], at)
  }

  lemma WaitingStays(s: System, step: Step, id: Uuid)
    requires Inv(s) && Enabled(s, step) && Waiting(s, id)
    requires step.Lock? ==> step.id != id
    ensures Waiting(Next(s, step), id) && Next(s, step).jobs[id] == s.jobs[id]
  {
    var s' := Next(s, step);
    if step.Commit? {
      assert s.workers[step.worker].id in LockedRows(s);
    }
    if step.Finish? {
      assert HeldOk(s, s.workers[step.worker]);
    }
    forall w | w in s'.workers && s'.workers[w].Dequeuing?
      ensures s'.workers[w].id != id
    {
      if w in s.workers && s.workers[w].Dequeuing? {
        assert s.workers[w].id in LockedRows(s);
      }
    }
  }

  ghost function Tie(s: System, step: Step, at: Time): set<Uuid> {
    if step.Enqueue? && s.clock == at then {step.id} else {}
  }

  // A row locked after a step was locked before it, or was chosen over the waiting job.
  lemma LockedWasAhead(s: System, step: Step, id: Uuid, other: Uuid)
    requires Inv(s) && Enabled(s, step) && Waiting(s, id) && (step.Lock? ==> step.id != id)
    requires other in LockedRows(Next(s, step))
    ensures other in Ahead(s, id)
  {
    var s' := Next(s, step);
    var w :| w in s'.workers && s'.workers[w].Dequeuing? && s'.workers[w].id == other;
    if w in s.workers && s.workers[w] == s'.workers[w] {
      assert other in LockedRows(s);
      assert HeldOk(s, s.workers[w]);
    } else {
      assert step.Lock? && IsNext(s.jobs, LockedRows(s), s.clock, other);
      assert Ready(s.jobs, LockedRows(s), s.clock, id);
    }
  }

  // A row due no later after a step was so before it, or was enqueued by it: a failed job is due later.
  lemma UnlockedWasAhead(s: System, step: Step, id: Uuid, other: Uuid)
    requires Inv(s) && Enabled(s, step) && Waiting(s, id)
    requires id in Next(s, step).jobs && Next(s, step).jobs[id] == s.jobs[id]
    requires other in Ahead(Next(s, step), id) && other !in LockedRows(Next(s, step))
    ensures other in Ahead(s, id) + Tie(s, step, s.jobs[id].scheduledAt)
  {
    if step.Finish? {
      FinishedIsNotAhead(s, step.worker, step.outcome, id);
    }
  }

  lemma FinishedIsNotAhead(s: System, w: nat, outcome: Outcome, id: Uuid)
    requires Inv(s) && Enabled(s, Finish(w, outcome)) && Waiting(s, id)
    requires id in Next(s, Finish(w, outcome)).jobs && Next(s, Finish(w, outcome)).jobs[id] == s.jobs[id]
    ensures s.workers[w].id !in Ahead(Next(s, Finish(w, outcome)), id)
  {
    assert HeldOk(s, s.workers[w]);
  }

  lemma AheadShrinks(s: System, step: Step, id: Uuid)
    requires Inv(s) && Enabled(s, step) && Waiting(s, id) && id in Next(s, step).jobs
    requires Next(s, step).jobs[id] == s.jobs[id]
    requires step.Lock? ==> step.id != id
    ensures Ahead(Next(s, step), id) <= Ahead(s, id) + Tie(s, step, s.jobs[id].scheduledAt)
  {
    var s' := Next(s, step);
    forall other | other in Ahead(s', id)
      ensures other in Ahead(s, id) + Tie(s, step, s.jobs[id].scheduledAt)
    {
      if other in LockedRows(s') {
        LockedWasAhead(s, step, id, other);
      } else {
        UnlockedWasAhead(s, step, id, other);
      }
    }
  }

  lemma CommitLeavesAhead(s: System, w: nat, id: Uuid)
    requires Inv(s) && Enabled(s, Commit(w)) && Waiting(s, id) && id in Next(s, Commit(w)).jobs
    ensures s.workers[w].id in Ahead(s, id) && s.workers[w].id !in Ahead(Next(s, Commit(w)), id)
  {
    assert HeldOk(s, s.workers[w]);
    assert s.workers[w].id in LockedRows(s);
  }

  // The jobs a run starts, and those it enqueues at a given instant.
  ghost function Started(s: System, steps: seq<Step>): set<Uuid>
    requires IsRun(s, steps)
    decreases |steps|
  {
    if |steps| == 0 then {}
    else (if steps[0].Commit? then {s.workers[steps[0].worker].id} else {}) + Started(Next(s, steps[0]), steps[1..])
  }

  ghost function EnqueuedAt(s: System, steps: seq<Step>, at: Time): set<Uuid>
    requires IsRun(s, steps)
    decreases |steps|
  {
    if |steps| == 0 then {} else Tie(s, steps[0], at) + EnqueuedAt(Next(s, steps[0]), steps[1..], at)
  }

  lemma NeverLocksLater(steps: seq<Step>, id: Uuid)
    requires NeverLocks(steps, id) && |steps| > 0
    ensures NeverLocks(steps[1..], id)
  {
    forall k | 0 <= k < |steps[1..]| && steps[1..][k].Lock?
      ensures steps[1..][k].id != id
    {
      assert steps[1..][k] == steps[k + 1];
    }
  }

  // Every job started while a due job waits was ahead of it, locked already or scheduled no later, or
  // was enqueued at the very instant it is scheduled for.
  lemma {:induction false} OvertakersWereAhead(s: System, steps: seq<Step>, id: Uuid)
    requires Inv(s) && IsRun(s, steps) && Waiting(s, id) && NeverLocks(steps, id)
    ensures Started(s, steps) <= Ahead(s, id) + EnqueuedAt(s, steps, s.jobs[id].scheduledAt)
    decreases |steps|
  {
    if |steps| > 0 {
      var step := steps[0];
      WaitingStays(s, step, id);
      AheadShrinks(s, step, id);
      if step.Commit? {
        CommitLeavesAhead(s, step.worker, id);
      }
      NextKeepsInv(s, step);
      NeverLocksLater(steps, id);
      OvertakersWereAhead(Next(s, step), steps[1..], id);
    }
  }

  lemma {:induction false} EnqueuedLate(s: System, steps: seq<Step>, at: Time)
    requires IsRun(s, steps) && s.clock > at
    ensures EnqueuedAt(s, steps, at) == {}
    decreases |steps|
  {
    if |steps| > 0 {
      EnqueuedLate(Next(s, steps[0]), steps[1..], at);
    }
  }

  // Nothing scheduled strictly later overtakes: a job that is not locked already, not pending with an
  // earlier or equal schedule, and not enqueued at that very instant is not started before the waiting
  // one, whether it is enqueued later, is rescheduled after a failure, or was pending already.
  lemma LaterNeverOvertakes(s: System, steps: seq<Step>, id: Uuid, other: Uuid)
    requires Inv(s) && IsRun(s, steps) && Waiting(s, id) && NeverLocks(steps, id)
    requires other !in LockedRows(s)
    requires other in s.jobs && s.jobs[other].status == Pending ==> s.jobs[other].scheduledAt > s.jobs[id].scheduledAt
    requires s.clock > s.jobs[id].scheduledAt || other !in EnqueuedAt(s, steps, s.jobs[id].scheduledAt)
    ensures other !in Started(s, steps)
  {
    OvertakersWereAhead(s, steps, id);
    if s.clock > s.jobs[id].scheduledAt {
      EnqueuedLate(s, steps, s.jobs[id].scheduledAt);
    }
  }

  // While a due job waits unlocked, at most the jobs ahead of it are dequeued, plus those enqueued
  // in the same microsecond it is scheduled for.
  lemma {:induction false} BoundedOvertaking(s: System, steps: seq<Step>, id: Uuid)
    requires Inv(s) && IsRun(s, steps) && Waiting(s, id) && NeverLocks(steps, id)
    ensures CountCommits(steps) <= |Ahead(s, id)| + CountTies(s, steps, s.jobs[id].scheduledAt)
    ensures s.clock > s.jobs[id].scheduledAt ==> CountCommits(steps) <= |Ahead(s, id)|
    ensures Started(s, steps) <= Ahead(s, id) + EnqueuedAt(s, steps, s.jobs[id].scheduledAt)
    decreases |steps|
  {
    OvertakersWereAhead(s, steps, id);
    if |steps| > 0 {
      var step, s' := steps[0], Next(s, steps[0]);
      WaitingStays(s, step, id);
      AheadShrinks(s, step, id);
      if step.Commit? {
        CommitLeavesAhead(s, step.worker, id);
      }
      NextKeepsInv(s, step);
      NeverLocksLater(steps, id);
      BoundedOvertaking(s', steps[1..], id);
      var tie := Tie(s, step, s.jobs[id].scheduledAt);
      var gone := if step.Commit? then {s.workers[step.worker].id} else {};
      SubsetCount(Ahead(s', id), Ahead(s, id) - gone + tie);
      if step.Commit? {
        assert |Ahead(s, id) - gone| == |Ahead(s, id)| - 1;
      }
      assert |Ahead(s, id) - gone + tie| <= |Ahead(s, id) - gone| + |tie|;
    }
  }
}
