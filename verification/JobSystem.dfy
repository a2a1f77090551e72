// The job queue under concurrency: any number of producers, N workers and the cleanup loop,
// interleaved at the granularity of database statements. Dequeue is two steps, because its
// row lock is visible to other workers (SKIP LOCKED) before its update commits.
module JobSystem {
  import opened Common
  import opened JobQueue
  import opened Worker

  datatype WorkerState =
    | Idle
    | Dequeuing(id: Uuid, now: Time)    // row locked, transaction not yet committed
    | Executing(id: Uuid, job: Job)     // job as Dequeue returned it

  // issued, cleaned and starts are history: every id ever enqueued, the ids Cleanup removed,
  // and per id the times at which a committed dequeue started it.
  datatype System = System(
    jobs: Jobs,
    clock: Time,
    workers: map<nat, WorkerState>,
    handlers: set<string>,
    issued: set<Uuid>,
    cleaned: set<Uuid>,
    starts: map<Uuid, seq<Time>>)

  datatype Step =
    | Tick(delta: nat)
    | Enqueue(id: Uuid, tenant: Uuid, jobType: string, payload: Option<string>)
    | Lock(worker: nat, id: Uuid)
    | Commit(worker: nat)
    | Abort(worker: nat)
    | Finish(worker: nat, outcome: Outcome)
    | Abandon(worker: nat)      // Complete or Fail returned an error, or the worker died
    | Cleanup(olderThanDays: int)

  function WorkerIds(concurrency: nat): set<nat> {
    if concurrency == 0 then {} else WorkerIds(concurrency - 1) + {concurrency - 1}
  }

  function Init(handlers: set<string>, concurrency: nat, clock: Time): System {
    System(map[], clock, map w: nat | w in WorkerIds(concurrency) :: Idle, handlers, {}, {}, map[])
  }

  function LockedRows(s: System): set<Uuid> {
    set w | w in s.workers && s.workers[w].Dequeuing? :: s.workers[w].id
  }

  ghost predicate Enabled(s: System, step: Step) {
    match step
    case Tick(_) => true
    case Enqueue(id, _, _, _) => id !in s.issued
    case Lock(w, id) => w in s.workers && s.workers[w].Idle? && IsNext(s.jobs, LockedRows(s), s.clock, id)
    case Commit(w) => w in s.workers && s.workers[w].Dequeuing? && s.workers[w].id in s.jobs
    case Abort(w) => w in s.workers && s.workers[w].Dequeuing?
    case Finish(w, _) => w in s.workers && s.workers[w].Executing? && s.workers[w].id in s.jobs
    case Abandon(w) => w in s.workers && s.workers[w].Executing?
    case Cleanup(_) => true
  }

  function StartsOf(s: System, id: Uuid): seq<Time> {
    if id in s.starts then s.starts[id] else []
  }

  function Next(s: System, step: Step): System
    requires Enabled(s, step)
  {
    match step
    case Tick(delta) => s.(clock := s.clock + delta)
    case Enqueue(id, tenant, jobType, payload) =>
      s.(jobs := s.jobs[id := NewJob(tenant, jobType, payload, s.clock)], issued := s.issued + {id})
    case Lock(w, id) => s.(workers := s.workers[w := Dequeuing(id, s.clock)])
    case Commit(w) =>
      var Dequeuing(id, now) := s.workers[w];
      var job := StartJob(s.jobs[id], now);
      s.(jobs := s.jobs[id := job], workers := s.workers[w := Executing(id, job)],
         starts := s.starts[id := StartsOf(s, id) + [now]])
    case Abort(w) => s.(workers := s.workers[w := Idle])
    case Finish(w, outcome) =>
      var Executing(id, job) := s.workers[w];
      var row := Settle(s.handlers, job.jobType, s.jobs[id], outcome, s.clock);
      s.(jobs := s.jobs[id := row], workers := s.workers[w := Idle])
    case Abandon(w) => s.(workers := s.workers[w := Idle])
    case Cleanup(days) =>
      var expired := ExpiredIds(s.jobs, days, s.clock);
      s.(jobs := s.jobs - expired, cleaned := s.cleaned + expired)
  }

  ghost predicate IsRun(s: System, steps: seq<Step>)
    decreases |steps|
  {
    |steps| == 0 || (Enabled(s, steps[0]) && IsRun(Next(s, steps[0]), steps[1..]))
  }

  ghost function After(s: System, steps: seq<Step>): System
    requires IsRun(s, steps)
    decreases |steps|
  {
    if |steps| == 0 then s else After(Next(s, steps[0]), steps[1..])
  }

  // ---- Invariant ----

  ghost predicate RowOk(job: Job, clock: Time) {
    && (job.status == Pending ==> job.attempts < job.maxAttempts && job.completedAt.None?)
    && (job.status == Running ==> 1 <= job.attempts <= job.maxAttempts && job.completedAt.None?)
    && (job.status == Completed ==> 1 <= job.attempts <= job.maxAttempts)
    && (job.status == Failed ==> job.attempts == job.maxAttempts)
    && (Terminal(job) ==> job.completedAt.Some? && job.completedAt.value <= clock)
    && job.maxAttempts == DEFAULT_MAX_ATTEMPTS
  }

  ghost predicate RowsOk(s: System) {
    forall id :: id in s.jobs ==> RowOk(s.jobs[id], s.clock)
  }

  // The job a worker has locked or is executing.
  function Holds(ws: WorkerState): Option<Uuid> {
    match ws
    case Idle => None
    case Dequeuing(id, _) => Some(id)
    case Executing(id, _) => Some(id)
  }

  ghost predicate Exclusive(s: System) {
    forall v, w :: v in s.workers && w in s.workers && v != w && Holds(s.workers[v]).Some? ==>
      Holds(s.workers[v]) != Holds(s.workers[w])
  }

  ghost predicate HeldOk(s: System, ws: WorkerState) {
    match ws
    case Idle => true
    case Dequeuing(id, now) =>
      id in s.jobs && s.jobs[id].status == Pending && s.jobs[id].scheduledAt <= now <= s.clock
    case Executing(id, job) => id in s.jobs && s.jobs[id] == job && job.status == Running
  }

  ghost predicate AllHeldOk(s: System) {
    forall w :: w in s.workers ==> HeldOk(s, s.workers[w])
  }

  ghost predicate SpacedByBackoff(starts: seq<Time>) {
    forall i :: 0 < i < |starts| ==> starts[i] >= starts[i - 1] + Backoff(i)
  }

  ghost predicate TimelineOk(job: Job, starts: seq<Time>, clock: Time) {
    && job.attempts == |starts|
    && SpacedByBackoff(starts)
    && (|starts| > 0 ==> starts[|starts| - 1] <= clock)
    && (job.status == Pending && |starts| > 0 ==>
          job.scheduledAt >= starts[|starts| - 1] + Backoff(|starts|))
  }

  ghost predicate TimelinesOk(s: System) {
    && (forall id :: id in s.jobs ==> TimelineOk(s.jobs[id], StartsOf(s, id), s.clock))
    && (forall id :: id in s.starts ==> id in s.issued && |s.starts[id]| <= DEFAULT_MAX_ATTEMPTS
                                        && SpacedByBackoff(s.starts[id]))
  }

  ghost predicate Accounted(s: System) {
    s.issued == s.jobs.Keys + s.cleaned && s.jobs.Keys !! s.cleaned
  }

  ghost predicate Inv(s: System) {
    RowsOk(s) && Exclusive(s) && AllHeldOk(s) && TimelinesOk(s) && Accounted(s)
  }

  lemma InitInv(handlers: set<string>, concurrency: nat, clock: Time)
    ensures Inv(Init(handlers, concurrency, clock))
  {
  }

  lemma LockKeepsInv(s: System, w: nat, id: Uuid)
    requires Inv(s) && Enabled(s, Lock(w, id))
    ensures Inv(Next(s, Lock(w, id)))
  {
    var s' := Next(s, Lock(w, id));
    forall v | v in s.workers && v != w
      ensures Holds(s.workers[v]) != Some(id)
    {
      if s.workers[v].Dequeuing? {
        assert s.workers[v].id in LockedRows(s);
      }
    }
  }

  // The shape of Commit and Finish: worker w, which holds row id, rewrites that row and moves on.
  ghost predicate HolderStep(s: System, s': System, w: nat, id: Uuid, job': Job, ws': WorkerState) {
    && w in s.workers && Holds(s.workers[w]) == Some(id) && id in s.jobs
    && s'.jobs == s.jobs[id := job'] && s'.workers == s.workers[w := ws'] && s'.clock == s.clock
    && s'.issued == s.issued && s'.cleaned == s.cleaned
    && (forall other :: other != id ==> StartsOf(s', other) == StartsOf(s, other))
    && s'.starts.Keys <= s.starts.Keys + {id}
    && (Holds(ws') == None || Holds(ws') == Some(id))
  }

  lemma HolderKeepsHeld(s: System, s': System, w: nat, id: Uuid, job': Job, ws': WorkerState)
    requires Inv(s) && HolderStep(s, s', w, id, job', ws') && HeldOk(s', ws')
    ensures Exclusive(s') && AllHeldOk(s')
  {
    forall v | v in s'.workers
      ensures HeldOk(s', s'.workers[v])
    {
      if v != w {
        assert HeldOk(s, s.workers[v]) && Holds(s.workers[v]) != Some(id);
      }
    }
  }

  lemma HolderKeepsTimelines(s: System, s': System, w: nat, id: Uuid, job': Job, ws': WorkerState)
    requires Inv(s) && HolderStep(s, s', w, id, job', ws')
    requires TimelineOk(job', StartsOf(s', id), s.clock) && job'.attempts <= DEFAULT_MAX_ATTEMPTS
    ensures TimelinesOk(s')
  {
    forall other | other in s'.starts
      ensures other in s'.issued && |s'.starts[other]| <= DEFAULT_MAX_ATTEMPTS && SpacedByBackoff(s'.starts[other])
    {
      if other != id {
        assert StartsOf(s', other) == StartsOf(s, other);
      } else {
        assert s'.starts[id] == StartsOf(s', id);
      }
    }
  }

  lemma HolderKeepsInv(s: System, s': System, w: nat, id: Uuid, job': Job, ws': WorkerState)
    requires Inv(s) && HolderStep(s, s', w, id, job', ws') && HeldOk(s', ws')
    requires RowOk(job', s.clock)
    requires TimelineOk(job', StartsOf(s', id), s.clock) && job'.attempts <= DEFAULT_MAX_ATTEMPTS
    ensures Inv(s')
  {
    HolderKeepsHeld(s, s', w, id, job', ws');
    HolderKeepsTimelines(s, s', w, id, job', ws');
    assert s'.jobs.Keys == s.jobs.Keys;
  }

  lemma StartKeepsTimeline(job: Job, starts: seq<Time>, now: Time, clock: Time)
    requires TimelineOk(job, starts, clock) && job.status == Pending && job.scheduledAt <= now <= clock
    ensures TimelineOk(StartJob(job, now), starts + [now], clock)
  {
  }

  lemma CommitIsHolderStep(s: System, w: nat)
    requires Inv(s) && Enabled(s, Commit(w))
    ensures var Dequeuing(id, now) := s.workers[w];
            var job := StartJob(s.jobs[id], now);
            HolderStep(s, Next(s, Commit(w)), w, id, job, Executing(id, job))
  {
  }

  lemma CommitKeepsInv(s: System, w: nat)
    requires Inv(s) && Enabled(s, Commit(w))
    ensures Inv(Next(s, Commit(w)))
  {
    var Dequeuing(id, now) := s.workers[w];
    assert HeldOk(s, s.workers[w]);
    assert TimelineOk(s.jobs[id], StartsOf(s, id), s.clock);
    var job := StartJob(s.jobs[id], now);
    StartKeepsTimeline(s.jobs[id], StartsOf(s, id), now, s.clock);
    CommitIsHolderStep(s, w);
    HolderKeepsInv(s, Next(s, Commit(w)), w, id, job, Executing(id, job));
  }

  lemma FinishKeepsInv(s: System, w: nat, outcome: Outcome)
    requires Inv(s) && Enabled(s, Finish(w, outcome))
    ensures Inv(Next(s, Finish(w, outcome)))
  {
    var Executing(id, job) := s.workers[w];
    assert HeldOk(s, s.workers[w]);
    assert TimelineOk(s.jobs[id], StartsOf(s, id), s.clock);
    HolderKeepsInv(s, Next(s, Finish(w, outcome)), w, id,
                   Settle(s.handlers, job.jobType, s.jobs[id], outcome, s.clock), Idle);
  }

  lemma CleanupKeepsInv(s: System, days: int)
    requires Inv(s)
    ensures Inv(Next(s, Cleanup(days)))
  {
    var s' := Next(s, Cleanup(days));
    forall w | w in s'.workers
      ensures HeldOk(s', s'.workers[w])
    {
      assert HeldOk(s, s.workers[w]);
    }
    assert forall id :: StartsOf(s', id) == StartsOf(s, id);
  }

  lemma EnqueueKeepsHeld(s: System, id: Uuid, tenant: Uuid, jobType: string, payload: Option<string>)
    requires Inv(s) && id !in s.issued
    ensures AllHeldOk(Next(s, Enqueue(id, tenant, jobType, payload)))
  {
    var s' := Next(s, Enqueue(id, tenant, jobType, payload));
    forall w | w in s'.workers
      ensures HeldOk(s', s'.workers[w])
    {
      assert HeldOk(s, s.workers[w]);
    }
  }

  lemma EnqueueKeepsTimelines(s: System, id: Uuid, tenant: Uuid, jobType: string, payload: Option<string>)
    requires Inv(s) && id !in s.issued
    ensures TimelinesOk(Next(s, Enqueue(id, tenant, jobType, payload)))
  {
    var s' := Next(s, Enqueue(id, tenant, jobType, payload));
    assert s'.starts == s.starts && id !in s.starts;
    forall other | other in s'.jobs
      ensures TimelineOk(s'.jobs[other], StartsOf(s', other), s'.clock)
    {
      assert StartsOf(s', other) == StartsOf(s, other);
      if other != id {
        assert TimelineOk(s.jobs[other], StartsOf(s, other), s.clock);
      }
    }
  }

  lemma EnqueueKeepsRows(s: System, id: Uuid, tenant: Uuid, jobType: string, payload: Option<string>)
    requires RowsOk(s) && Exclusive(s) && Accounted(s) && id !in s.issued
    ensures var s' := Next(s, Enqueue(id, tenant, jobType, payload)); RowsOk(s') && Exclusive(s') && Accounted(s')
  {
    var s' := Next(s, Enqueue(id, tenant, jobType, payload));
    assert s'.jobs.Keys == s.jobs.Keys + {id};
  }

  lemma EnqueueKeepsInv(s: System, id: Uuid, tenant: Uuid, jobType: string, payload: Option<string>)
    requires Inv(s) && id !in s.issued
    ensures Inv(Next(s, Enqueue(id, tenant, jobType, payload)))
  {
    EnqueueKeepsHeld(s, id, tenant, jobType, payload);
    EnqueueKeepsTimelines(s, id, tenant, jobType, payload);
    EnqueueKeepsRows(s, id, tenant, jobType, payload);
  }

  lemma TickKeepsInv(s: System, delta: nat)
    requires Inv(s)
    ensures Inv(Next(s, Tick(delta)))
  {
    var s' := Next(s, Tick(delta));
    forall w | w in s'.workers
      ensures HeldOk(s', s'.workers[w])
    {
      assert HeldOk(s, s.workers[w]);
    }
    forall id | id in s'.jobs
      ensures TimelineOk(s'.jobs[id], StartsOf(s', id), s'.clock)
    {
      assert TimelineOk(s.jobs[id], StartsOf(s, id), s.clock);
    }
  }

  lemma ReleaseKeepsInv(s: System, s': System, w: nat)
    requires Inv(s) && w in s.workers && s' == s.(workers := s.workers[w := Idle])
    ensures Inv(s')
  {
    forall v | v in s'.workers
      ensures HeldOk(s', s'.workers[v])
    {
      assert HeldOk(s, s.workers[v]);
    }
    forall id | id in s'.jobs
      ensures TimelineOk(s'.jobs[id], StartsOf(s', id), s'.clock)
    {
      assert TimelineOk(s.jobs[id], StartsOf(s, id), s.clock);
    }
  }

  // Every step of every interleaving keeps the invariant.
  lemma NextKeepsInv(s: System, step: Step)
    requires Inv(s) && Enabled(s, step)
    ensures Inv(Next(s, step))
  {
    match step
    case Tick(delta) => TickKeepsInv(s, delta);
    case Enqueue(id, tenant, jobType, payload) => EnqueueKeepsInv(s, id, tenant, jobType, payload);
    case Lock(w, id) => LockKeepsInv(s, w, id);
    case Commit(w) => CommitKeepsInv(s, w);
    case Abort(w) => ReleaseKeepsInv(s, Next(s, step), w);
    case Finish(w, outcome) => FinishKeepsInv(s, w, outcome);
    case Abandon(w) => ReleaseKeepsInv(s, Next(s, step), w);
    case Cleanup(days) => CleanupKeepsInv(s, days);
  }

  lemma {:induction false} RunKeepsInv(s: System, steps: seq<Step>)
    requires Inv(s) && IsRun(s, steps)
    ensures Inv(After(s, steps))
    decreases |steps|
  {
    if |steps| > 0 {
      NextKeepsInv(s, steps[0]);
      RunKeepsInv(Next(s, steps[0]), steps[1..]);
    }
  }
}
