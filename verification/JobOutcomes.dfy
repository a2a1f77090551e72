// What becomes of a job, told by what was asked for and by what its handler returned last, over whole
// runs of internal/service/worker.go against internal/adapter/postgres/job_queue.go.
module JobOutcomes {
  import opened Common
  import opened JobQueue
  import opened Worker
  import opened JobSystem

  // What Enqueue was given, and what the last settled execution returned, and when.
  datatype Order = Order(tenant: Uuid, jobType: string, payload: Option<string>, at: Time)
  datatype Settlement = Settlement(outcome: Outcome, at: Time)
  datatype Ledger = Ledger(orders: map<Uuid, Order>, settlements: map<Uuid, Settlement>)

  function Record(s: System, step: Step, ledger: Ledger): Ledger {
    match step
    case Enqueue(id, tenant, jobType, payload) =>
      ledger.(orders := ledger.orders[id := Order(tenant, jobType, payload, s.clock)])
    case Finish(w, outcome) =>
      if w in s.workers && s.workers[w].Executing? then
        ledger.(settlements := ledger.settlements[s.workers[w].id := Settlement(outcome, s.clock)])
      else ledger
    case _ => ledger
  }

  ghost function LedgerAfter(s: System, steps: seq<Step>, ledger: Ledger): Ledger
    requires IsRun(s, steps)
    decreases |steps|
  {
    if |steps| == 0 then ledger else LedgerAfter(Next(s, steps[0]), steps[1..], Record(s, steps[0], ledger))
  }

  ghost predicate AsOrdered(job: Job, order: Order) {
    && job.tenant == order.tenant && job.jobType == order.jobType && job.createdAt == order.at
    && job.payload == (if order.payload.None? then "{}" else order.payload.value)
  }

  ghost predicate NotSettled(job: Job, order: Order) {
    && (job.status == Pending || job.status == Running) && job.error == "" && job.result == None
    && (job.status == Pending ==> job.attempts == 0 && job.scheduledAt == order.at)
  }

  ghost predicate Succeeded(job: Job, handlers: set<string>, settlement: Settlement) {
    settlement.outcome.Succeeded? && job.jobType in handlers
  }

  ghost predicate SettledWell(job: Job, settlement: Settlement)
    requires settlement.outcome.Succeeded?
  {
    job.status == Completed && job.result == settlement.outcome.result && job.completedAt == Some(settlement.at)
  }

  function FailureText(job: Job, handlers: set<string>, settlement: Settlement): string {
    if job.jobType !in handlers then "unknown job type: " + job.jobType
    else match settlement.outcome case Errored(msg) => msg case Succeeded(_) => ""
  }

  ghost predicate SettledBadly(job: Job, handlers: set<string>, settlement: Settlement) {
    && job.status != Completed && job.error == FailureText(job, handlers, settlement) && job.result == None
    && (job.status == Pending ==>
          1 <= job.attempts < 3 && job.completedAt == None
          && job.scheduledAt == settlement.at + (if job.attempts == 1 then 30 else 60) * SECOND)
    && (job.status == Failed ==> job.attempts == 3 && job.completedAt == Some(settlement.at))
  }

  ghost predicate StartedLast(job: Job, starts: seq<Time>) {
    job.attempts == |starts| && job.startedAt == if |starts| == 0 then None else Some(starts[|starts| - 1])
  }

  ghost predicate RowAccounted(job: Job, starts: seq<Time>, handlers: set<string>, order: Order,
                               settlement: Option<Settlement>) {
    && AsOrdered(job, order) && StartedLast(job, starts) && job.maxAttempts == 3
    && match settlement
       case None => NotSettled(job, order)
       case Some(last) =>
         if Succeeded(job, handlers, last) then SettledWell(job, last) else SettledBadly(job, handlers, last)
  }

  function LastOf(ledger: Ledger, id: Uuid): Option<Settlement> {
    if id in ledger.settlements then Some(ledger.settlements[id]) else None
  }

  ghost predicate RowOfLedger(s: System, ledger: Ledger, id: Uuid)
    requires id in s.jobs
  {
    id in ledger.orders && RowAccounted(s.jobs[id], StartsOf(s, id), s.handlers, ledger.orders[id], LastOf(ledger, id))
  }

  ghost predicate LedgerOk(s: System, ledger: Ledger) {
    && (forall id :: id in s.jobs ==> RowOfLedger(s, ledger, id))
    && (forall id :: id in ledger.settlements ==> id in s.issued)
  }

  lemma EnqueueKeepsLedger(s: System, ledger: Ledger, id: Uuid, tenant: Uuid, jobType: string, payload: Option<string>)
    requires Inv(s) && LedgerOk(s, ledger) && id !in s.issued
    ensures var step := Enqueue(id, tenant, jobType, payload); LedgerOk(Next(s, step), Record(s, step, ledger))
  {
    var step := Enqueue(id, tenant, jobType, payload);
    var s', ledger' := Next(s, step), Record(s, step, ledger);
    assert id !in s.starts && s'.starts == s.starts;
    forall other | other in s'.jobs
      ensures RowOfLedger(s', ledger', other)
    {
      if other != id {
        assert RowOfLedger(s, ledger, other);
      }
    }
  }

  lemma CommitKeepsLedger(s: System, ledger: Ledger, w: nat)
    requires Inv(s) && LedgerOk(s, ledger) && Enabled(s, Commit(w))
    ensures LedgerOk(Next(s, Commit(w)), ledger)
  {
    var id, s' := s.workers[w].id, Next(s, Commit(w));
    assert HeldOk(s, s.workers[w]);
    assert RowOfLedger(s, ledger, id);
    forall other | other in s'.jobs
      ensures RowOfLedger(s', ledger, other)
    {
      if other != id {
        assert RowOfLedger(s, ledger, other) && StartsOf(s', other) == StartsOf(s, other);
      }
    }
  }

  // The settled row, from the row the worker holds.
  lemma SettledRow(handlers: set<string>, row: Job, starts: seq<Time>, order: Order, before: Option<Settlement>,
                   outcome: Outcome, now: Time)
    requires RowAccounted(row, starts, handlers, order, before) && row.status == Running && 1 <= row.attempts <= 3
    requires row.completedAt == None
    ensures RowAccounted(Settle(handlers, row.jobType, row, outcome, now), starts, handlers, order,
                         Some(Settlement(outcome, now)))
  {
    BackoffIsExponential(row.attempts);
  }

  lemma FinishKeepsLedger(s: System, ledger: Ledger, w: nat, outcome: Outcome)
    requires Inv(s) && LedgerOk(s, ledger) && Enabled(s, Finish(w, outcome))
    ensures LedgerOk(Next(s, Finish(w, outcome)), Record(s, Finish(w, outcome), ledger))
  {
    var step := Finish(w, outcome);
    var id, s', ledger' := s.workers[w].id, Next(s, step), Record(s, step, ledger);
    assert HeldOk(s, s.workers[w]) && RowOk(s.jobs[id], s.clock);
    assert RowOfLedger(s, ledger, id);
    SettledRow(s.handlers, s.jobs[id], StartsOf(s, id), ledger.orders[id], LastOf(ledger, id), outcome, s.clock);
    forall other | other in s'.jobs
      ensures RowOfLedger(s', ledger', other)
    {
      if other != id {
        assert RowOfLedger(s, ledger, other);
      }
    }
  }

  lemma OthersKeepLedger(s: System, ledger: Ledger, step: Step)
    requires LedgerOk(s, ledger) && Enabled(s, step)
    requires step.Tick? || step.Lock? || step.Abort? || step.Abandon? || step.Cleanup?
    ensures LedgerOk(Next(s, step), ledger)
  {
    var s' := Next(s, step);
    forall id | id in s'.jobs
      ensures RowOfLedger(s', ledger, id)
    {
      assert RowOfLedger(s, ledger, id);
    }
  }

  lemma StepKeepsLedger(s: System, ledger: Ledger, step: Step)
    requires Inv(s) && LedgerOk(s, ledger) && Enabled(s, step)
    ensures LedgerOk(Next(s, step), Record(s, step, ledger))
  {
    match step
    case Enqueue(id, tenant, jobType, payload) => EnqueueKeepsLedger(s, ledger, id, tenant, jobType, payload);
    case Commit(w) => CommitKeepsLedger(s, ledger, w);
    case Finish(w, outcome) => FinishKeepsLedger(s, ledger, w, outcome);
    case _ => OthersKeepLedger(s, ledger, step);
  }

  lemma {:induction false} RunKeepsLedger(s: System, steps: seq<Step>, ledger: Ledger)
    requires Inv(s) && LedgerOk(s, ledger) && IsRun(s, steps)
    ensures LedgerOk(After(s, steps), LedgerAfter(s, steps, ledger))
    decreases |steps|
  {
    if |steps| > 0 {
      NextKeepsInv(s, steps[0]);
      StepKeepsLedger(s, ledger, steps[0]);
      RunKeepsLedger(Next(s, steps[0]), steps[1..], Record(s, steps[0], ledger));
    }
  }

  // ---- What every run of the queue shows ----

  ghost function LedgerOf(handlers: set<string>, concurrency: nat, clock: Time, steps: seq<Step>): Ledger
    requires IsRun(Init(handlers, concurrency, clock), steps)
  {
    LedgerAfter(Init(handlers, concurrency, clock), steps, Ledger(map[], map[]))
  }

  lemma {:induction false} HandlersStay(s: System, steps: seq<Step>)
    requires IsRun(s, steps)
    ensures After(s, steps).handlers == s.handlers
    decreases |steps|
  {
    if |steps| > 0 {
      HandlersStay(Next(s, steps[0]), steps[1..]);
    }
  }

  lemma EveryRowIsAccounted(handlers: set<string>, concurrency: nat, clock: Time, steps: seq<Step>)
    requires IsRun(Init(handlers, concurrency, clock), steps)
    ensures var s := After(Init(handlers, concurrency, clock), steps);
            Inv(s) && s.handlers == handlers && LedgerOk(s, LedgerOf(handlers, concurrency, clock, steps))
  {
    var s := Init(handlers, concurrency, clock);
    InitInv(handlers, concurrency, clock);
    RunKeepsInv(s, steps);
    RunKeepsLedger(s, steps, Ledger(map[], map[]));
    HandlersStay(s, steps);
  }

  // A stored job, and the copy of it a worker executes, is the one Enqueue was asked for.
  lemma JobsAreAsOrdered(handlers: set<string>, concurrency: nat, clock: Time, steps: seq<Step>, id: Uuid)
    requires IsRun(Init(handlers, concurrency, clock), steps)
    requires id in After(Init(handlers, concurrency, clock), steps).jobs
    ensures var s := After(Init(handlers, concurrency, clock), steps);
            var ledger := LedgerOf(handlers, concurrency, clock, steps);
            && id in ledger.orders
            && var order, job := ledger.orders[id], s.jobs[id];
               && job.tenant == order.tenant && job.jobType == order.jobType && job.createdAt == order.at
               && job.payload == (if order.payload.None? then "{}" else order.payload.value)
               && (forall w :: w in s.workers && s.workers[w].Executing? && s.workers[w].id == id ==>
                     && s.workers[w].job.tenant == order.tenant && s.workers[w].job.jobType == order.jobType
                     && s.workers[w].job.payload == (if order.payload.None? then "{}" else order.payload.value))
  {
    EveryRowIsAccounted(handlers, concurrency, clock, steps);
    var s := After(Init(handlers, concurrency, clock), steps);
    assert RowOfLedger(s, LedgerOf(handlers, concurrency, clock, steps), id);
    forall w | w in s.workers && s.workers[w].Executing? && s.workers[w].id == id
      ensures s.workers[w].job == s.jobs[id]
    {
      assert HeldOk(s, s.workers[w]);
    }
  }

  // A job is completed exactly when its last settled execution succeeded under a registered type.
  lemma CompletedIffSucceeded(handlers: set<string>, concurrency: nat, clock: Time, steps: seq<Step>, id: Uuid)
    requires IsRun(Init(handlers, concurrency, clock), steps)
    requires id in After(Init(handlers, concurrency, clock), steps).jobs
    ensures var job := After(Init(handlers, concurrency, clock), steps).jobs[id];
            var last := LedgerOf(handlers, concurrency, clock, steps).settlements;
            && (job.status == Completed
                <==> id in last && last[id].outcome.Succeeded? && job.jobType in handlers)
            && (job.status == Completed ==>
                  job.result == last[id].outcome.result && job.completedAt == Some(last[id].at))
  {
    EveryRowIsAccounted(handlers, concurrency, clock, steps);
    var s := After(Init(handlers, concurrency, clock), steps);
    assert RowOfLedger(s, LedgerOf(handlers, concurrency, clock, steps), id);
  }

  // Any other settled job carries the failure's text. It is failed exactly when it has had three starts,
  // and otherwise, unless a worker runs it again, it is due 30 or 60 seconds after the failure.
  lemma FailuresAreRetriedOrFinal(handlers: set<string>, concurrency: nat, clock: Time, steps: seq<Step>, id: Uuid)
    requires IsRun(Init(handlers, concurrency, clock), steps)
    requires id in After(Init(handlers, concurrency, clock), steps).jobs
    requires After(Init(handlers, concurrency, clock), steps).jobs[id].status != Completed
    requires id in LedgerOf(handlers, concurrency, clock, steps).settlements
    ensures var s := After(Init(handlers, concurrency, clock), steps);
            var job, last := s.jobs[id], LedgerOf(handlers, concurrency, clock, steps).settlements[id];
            && (job.jobType !in handlers ==> job.error == "unknown job type: " + job.jobType)
            && (job.jobType in handlers ==> last.outcome.Errored? && job.error == last.outcome.msg)
            && job.result == None
            && (job.status != Running ==> (job.status == Failed <==> |StartsOf(s, id)| == 3))
            && (job.status == Failed ==> job.completedAt == Some(last.at))
            && (job.status == Pending ==>
                  job.scheduledAt == last.at + (if |StartsOf(s, id)| == 1 then 30 else 60) * SECOND)
  {
    EveryRowIsAccounted(handlers, concurrency, clock, steps);
    var s := After(Init(handlers, concurrency, clock), steps);
    assert RowOfLedger(s, LedgerOf(handlers, concurrency, clock, steps), id);
    assert RowOk(s.jobs[id], s.clock);
  }

  // A job no execution of which was settled waits, from when it was enqueued, or is running.
  lemma UnsettledJobsWait(handlers: set<string>, concurrency: nat, clock: Time, steps: seq<Step>, id: Uuid)
    requires IsRun(Init(handlers, concurrency, clock), steps)
    requires id in After(Init(handlers, concurrency, clock), steps).jobs
    requires id !in LedgerOf(handlers, concurrency, clock, steps).settlements
    ensures var s, ledger := After(Init(handlers, concurrency, clock), steps),
                             LedgerOf(handlers, concurrency, clock, steps);
            var job := s.jobs[id];
            && id in ledger.orders && job.error == "" && job.result == None
            && (|StartsOf(s, id)| == 0 ==> job.status == Pending && job.scheduledAt == ledger.orders[id].at)
            && (|StartsOf(s, id)| > 0 ==>
                  job.status == Running && job.startedAt == Some(StartsOf(s, id)[|StartsOf(s, id)| - 1]))
  {
    EveryRowIsAccounted(handlers, concurrency, clock, steps);
    var s := After(Init(handlers, concurrency, clock), steps);
    assert RowOfLedger(s, LedgerOf(handlers, concurrency, clock, steps), id);
    assert RowOk(s.jobs[id], s.clock);
  }
}
