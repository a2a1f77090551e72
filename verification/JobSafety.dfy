// What every run of the job system guarantees.
module JobSafety {
  import opened Common
  import opened JobQueue
  import opened Worker
  import opened JobSystem

  // From an empty queue, in every interleaving: no job is held twice, a held job is untouched by
  // everyone else, and each row's status agrees with its attempts and its completion time.
  lemma ReachableStates(handlers: set<string>, concurrency: nat, clock: Time, steps: seq<Step>)
    requires IsRun(Init(handlers, concurrency, clock), steps)
    ensures var s := After(Init(handlers, concurrency, clock), steps);
            && (forall v, w :: v in s.workers && w in s.workers && v != w && Holds(s.workers[v]).Some? ==>
                  Holds(s.workers[v]) != Holds(s.workers[w]))
            && (forall w :: w in s.workers && s.workers[w].Executing? ==>
                  var Executing(id, job) := s.workers[w];
                  id in s.jobs && s.jobs[id] == job && job.status == Running)
            && (forall w :: w in s.workers && s.workers[w].Dequeuing? ==>
                  s.workers[w].id in s.jobs && s.jobs[s.workers[w].id].status == Pending)
            && (forall id :: id in s.jobs ==>
                  var job := s.jobs[id];
                  && (job.status == Pending ==> job.attempts < job.maxAttempts)
                  && (job.status == Running ==> 1 <= job.attempts <= job.maxAttempts)
                  && (job.status == Failed ==> job.attempts == job.maxAttempts)
                  && (job.completedAt.Some? <==> Terminal(job)))
  {
    var s0 := Init(handlers, concurrency, clock);
    InitInv(handlers, concurrency, clock);
    RunKeepsInv(s0, steps);
    var s := After(s0, steps);
    forall w | w in s.workers
      ensures HeldOk(s, s.workers[w])
    {
    }
    forall id | id in s.jobs
      ensures RowOk(s.jobs[id], s.clock)
    {
    }
  }

  // ---- Terminal rows ----

  lemma TerminalStaysOneStep(s: System, step: Step, id: Uuid)
    requires Inv(s) && Enabled(s, step)
    requires id in s.jobs && Terminal(s.jobs[id])
    ensures var s' := Next(s, step);
            if id in s'.jobs then s'.jobs[id] == s.jobs[id] else id in s'.cleaned
  {
    if step.Commit? || step.Finish? {
      assert HeldOk(s, s.workers[step.worker]);
    }
  }

  lemma {:induction false} CleanedStaysCleaned(s: System, steps: seq<Step>, id: Uuid)
    requires Inv(s) && IsRun(s, steps) && id in s.cleaned
    ensures id in After(s, steps).cleaned && id !in After(s, steps).jobs
    decreases |steps|
  {
    if |steps| > 0 {
      NextKeepsInv(s, steps[0]);
      CleanedStaysCleaned(Next(s, steps[0]), steps[1..], id);
    }
  }

  // A completed or dead-lettered job never changes again; it can only be removed, and then for good.
  lemma {:induction false} TerminalStays(s: System, steps: seq<Step>, id: Uuid)
    requires Inv(s) && IsRun(s, steps)
    requires id in s.jobs && Terminal(s.jobs[id])
    ensures var s' := After(s, steps);
            (id in s'.jobs && s'.jobs[id] == s.jobs[id]) || (id !in s'.jobs && id in s'.cleaned)
    decreases |steps|
  {
    if |steps| > 0 {
      var s1 := Next(s, steps[0]);
      NextKeepsInv(s, steps[0]);
      TerminalStaysOneStep(s, steps[0], id);
      if id in s1.jobs {
        TerminalStays(s1, steps[1..], id);
      } else {
        CleanedStaysCleaned(s1, steps[1..], id);
      }
    }
  }

  // Only Cleanup removes a row, and it removes exactly the terminal ones past retention.
  lemma OnlyCleanupRemoves(s: System, step: Step, id: Uuid)
    requires Inv(s) && Enabled(s, step) && id in s.jobs
    ensures id !in Next(s, step).jobs <==>
            && step.Cleanup?
            && (s.jobs[id].status == Completed || s.jobs[id].status == Failed)
            && s.jobs[id].completedAt.value + step.olderThanDays * 86_400 * SECOND < s.clock
  {
    assert RowOk(s.jobs[id], s.clock);
  }

  // ---- Conservation ----

  ghost function WithStatus(jobs: Jobs, status: Status): set<Uuid> {
    set id | id in jobs && jobs[id].status == status
  }

  lemma StatusesCover(jobs: Jobs)
    ensures jobs.Keys == WithStatus(jobs, Pending) + WithStatus(jobs, Running)
                         + WithStatus(jobs, Completed) + WithStatus(jobs, Failed)
  {
    forall id | id in jobs
      ensures id in WithStatus(jobs, jobs[id].status)
    {
    }
  }

  lemma DisjointSizes<T>(a: set<T>, b: set<T>, c: set<T>, d: set<T>, e: set<T>)
    requires a !! b && (a + b) !! c && (a + b + c) !! d && (a + b + c + d) !! e
    ensures |a + b + c + d + e| == |a| + |b| + |c| + |d| + |e|
  {
    assert |a + b| == |a| + |b|;
    assert |a + b + c| == |a + b| + |c|;
    assert |a + b + c + d| == |a + b + c| + |d|;
  }

  lemma CountsAddUp(s: System)
    requires Accounted(s)
    ensures |s.issued| == |WithStatus(s.jobs, Pending)| + |WithStatus(s.jobs, Running)|
                          + |WithStatus(s.jobs, Completed)| + |WithStatus(s.jobs, Failed)| + |s.cleaned|
  {
    StatusesCover(s.jobs);
    DisjointSizes(WithStatus(s.jobs, Pending), WithStatus(s.jobs, Running),
                  WithStatus(s.jobs, Completed), WithStatus(s.jobs, Failed), s.cleaned);
  }

  // In every interleaving, every job ever enqueued is in exactly one place.
  lemma Conservation(handlers: set<string>, concurrency: nat, clock: Time, steps: seq<Step>)
    requires IsRun(Init(handlers, concurrency, clock), steps)
    ensures var s := After(Init(handlers, concurrency, clock), steps);
            |s.issued| == |WithStatus(s.jobs, Pending)| + |WithStatus(s.jobs, Running)|
                          + |WithStatus(s.jobs, Completed)| + |WithStatus(s.jobs, Failed)| + |s.cleaned|
  {
    InitInv(handlers, concurrency, clock);
    RunKeepsInv(Init(handlers, concurrency, clock), steps);
    CountsAddUp(After(Init(handlers, concurrency, clock), steps));
  }

  // ---- Backoff timeline ----

  lemma {:induction false} SpacingAddsUp(starts: seq<Time>, k: nat)
    requires SpacedByBackoff(starts) && k < |starts|
    ensures starts[k] >= starts[0] + 30 * (Pow2(k) - 1) * SECOND
  {
    if k > 0 {
      SpacingAddsUp(starts, k - 1);
      BackoffIsExponential(k);
    }
  }

  // Whatever the interleaving, a job starts at most three times, and its k-th restart comes at
  // least 30 * (2^k - 1) seconds after its first start.
  lemma BackoffTimeline(handlers: set<string>, concurrency: nat, clock: Time, steps: seq<Step>, id: Uuid)
    requires IsRun(Init(handlers, concurrency, clock), steps)
    ensures var starts := StartsOf(After(Init(handlers, concurrency, clock), steps), id);
            && |starts| <= 3
            && forall k :: 0 <= k < |starts| ==> starts[k] >= starts[0] + 30 * (Pow2(k) - 1) * SECOND
  {
    var s0 := Init(handlers, concurrency, clock);
    InitInv(handlers, concurrency, clock);
    RunKeepsInv(s0, steps);
    var starts := StartsOf(After(s0, steps), id);
    forall k | 0 <= k < |starts|
      ensures starts[k] >= starts[0] + 30 * (Pow2(k) - 1) * SECOND
    {
      SpacingAddsUp(starts, k);
    }
  }

  // A job that fails after a start waits 30 * 2^(attempts - 1) seconds for the next: thirty or sixty.
  lemma RetryWaits(s: System, w: nat, outcome: Outcome)
    requires Inv(s) && Enabled(s, Finish(w, outcome))
    ensures var id, s' := s.workers[w].id, Next(s, Finish(w, outcome));
            s'.jobs[id].status == Pending ==>
              && s'.jobs[id].scheduledAt == s'.clock + 30 * Pow2(s'.jobs[id].attempts - 1) * SECOND
              && s'.jobs[id].scheduledAt == s'.clock + (if s'.jobs[id].attempts == 1 then 30 else 60) * SECOND
  {
    BackoffIsExponential(s.jobs[s.workers[w].id].attempts);
    assert HeldOk(s, s.workers[w]) && RowOk(s.jobs[s.workers[w].id], s.clock);
  }

  // ---- The sequential worker is a run of the system ----

  lemma StepThen(s: System, step: Step, rest: seq<Step>)
    requires Enabled(s, step) && IsRun(Next(s, step), rest)
    ensures IsRun(s, [step] + rest) && After(s, [step] + rest) == After(Next(s, step), rest)
  {
    assert ([step] + rest)[1..] == rest;
  }

  lemma LockThenCommit(s: System, w: nat, id: Uuid)
    requires Inv(s) && Enabled(s, Lock(w, id))
    ensures var s1 := Next(s, Lock(w, id));
            && Enabled(s1, Commit(w))
            && var started := StartJob(s.jobs[id], s.clock);
               var s2 := Next(s1, Commit(w));
               && s2.jobs == s.jobs[id := started]
               && s2.workers == s.workers[w := Executing(id, started)]
               && s2.clock == s.clock && s2.handlers == s.handlers
  {
    var s1 := Next(s, Lock(w, id));
    assert s1.workers[w := Executing(id, StartJob(s.jobs[id], s.clock))]
      == s.workers[w := Executing(id, StartJob(s.jobs[id], s.clock))];
  }

  ghost function Settling(w: nat, delta: nat, outcome: Outcome): seq<Step> {
    [Tick(delta)] + ([Finish(w, outcome)] + [])
  }

  lemma SettlingRuns(s: System, w: nat, delta: nat, outcome: Outcome)
    requires w in s.workers && s.workers[w].Executing? && s.workers[w].id in s.jobs
    ensures var Executing(id, job) := s.workers[w];
            && IsRun(s, Settling(w, delta, outcome))
            && var end := After(s, Settling(w, delta, outcome));
               && end.jobs == s.jobs[id := Settle(s.handlers, job.jobType, s.jobs[id], outcome, s.clock + delta)]
               && end.workers == s.workers[w := Idle]
  {
    var s' := Next(s, Tick(delta));
    StepThen(s', Finish(w, outcome), []);
    StepThen(s, Tick(delta), [Finish(w, outcome)] + []);
  }

  lemma AfterLockCommit(s: System, w: nat, id: Uuid, rest: seq<Step>)
    requires Inv(s) && Enabled(s, Lock(w, id))
    requires Enabled(Next(s, Lock(w, id)), Commit(w))
    requires IsRun(Next(Next(s, Lock(w, id)), Commit(w)), rest)
    ensures var steps := [Lock(w, id)] + ([Commit(w)] + rest);
            IsRun(s, steps) && After(s, steps) == After(Next(Next(s, Lock(w, id)), Commit(w)), rest)
  {
    StepThen(Next(s, Lock(w, id)), Commit(w), rest);
    StepThen(s, Lock(w, id), [Commit(w)] + rest);
  }

  lemma SettlingAfterCommit(s: System, s2: System, w: nat, id: Uuid, outcome: Outcome, delta: nat)
    requires id in s.jobs && w in s.workers && s.workers[w].Idle?
    requires var started := StartJob(s.jobs[id], s.clock);
             && s2.jobs == s.jobs[id := started] && s2.workers == s.workers[w := Executing(id, started)]
             && s2.clock == s.clock && s2.handlers == s.handlers
    ensures IsRun(s2, Settling(w, delta, outcome))
    ensures var started, end := StartJob(s.jobs[id], s.clock), After(s2, Settling(w, delta, outcome));
            && end.jobs == s.jobs[id := Settle(s.handlers, started.jobType, started, outcome, s.clock + delta)]
            && end.workers == s.workers
  {
    SettlingRuns(s2, w, delta, outcome);
    assert s2.workers[w := Idle] == s.workers;
  }

  // With the rows other sessions have locked, one ProcessOne that settles its job has the effect
  // of Lock, Commit, the handler's time, Finish.
  lemma ProcessOneIsARun(s: System, w: nat, id: Uuid, outcome: Outcome, delta: nat)
    returns (steps: seq<Step>, end: System)
    requires Inv(s) && Enabled(s, Lock(w, id))
    ensures steps == [Lock(w, id)] + ([Commit(w)] + Settling(w, delta, outcome))
    ensures IsRun(s, steps) && end == After(s, steps)
    ensures var started := StartJob(s.jobs[id], s.clock);
            end.jobs == s.jobs[id := Settle(s.handlers, started.jobType, started, outcome, s.clock + delta)]
    ensures end.workers == s.workers
  {
    LockThenCommit(s, w, id);
    var s2 := Next(Next(s, Lock(w, id)), Commit(w));
    SettlingAfterCommit(s, s2, w, id, outcome, delta);
    AfterLockCommit(s, w, id, Settling(w, delta, outcome));
    steps := [Lock(w, id)] + ([Commit(w)] + Settling(w, delta, outcome));
    end := After(s2, Settling(w, delta, outcome));
  }

  // One whose Complete or Fail errors has the effect of Lock, Commit, Abandon.
  lemma FailedSettlementIsARun(s: System, w: nat, id: Uuid) returns (steps: seq<Step>, end: System)
    requires Inv(s) && Enabled(s, Lock(w, id))
    ensures steps == [Lock(w, id)] + ([Commit(w)] + ([Abandon(w)] + []))
    ensures IsRun(s, steps) && end == After(s, steps)
    ensures end.jobs == s.jobs[id := StartJob(s.jobs[id], s.clock)] && end.workers == s.workers
  {
    LockThenCommit(s, w, id);
    var s2 := Next(Next(s, Lock(w, id)), Commit(w));
    StepThen(s2, Abandon(w), []);
    AfterLockCommit(s, w, id, [Abandon(w)] + []);
    steps := [Lock(w, id)] + ([Commit(w)] + ([Abandon(w)] + []));
    end := Next(s2, Abandon(w));
    assert s2.workers[w := Idle] == s.workers;
  }
}
