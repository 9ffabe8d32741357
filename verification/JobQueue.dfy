/** The typed queue over pg-boss and the ledger (packages/jobs/src/queue.ts): `enqueue`, the batch
    handler of `work`, and every interleaving of the two with the driver. */
module JobQueue {
  import opened Common
  import opened Ledger

  // ---------------------------------------------------------------- the driver, as the queue sees it

  /** `Dispatched` is pg-boss's own 'active'. */
  datatype DriverState = Created | Retry | Dispatched | Done | Dead

  datatype DriverJob = DriverJob(state: DriverState, retryCount: nat, retryLimit: nat)

  /** A job as `fetch` hands it to the batch handler. */
  datatype Fetched = Fetched(id: JobId, retryCount: nat, retryLimit: nat) {
    predicate WillRetry() {
      retryCount < retryLimit
    }
  }

  datatype SendOutcome = Sent | Refused | Threw(published: bool) {
    predicate Published() {
      Sent? || (Threw? && published)
    }
  }

  class Boss {
    var jobs: map<JobId, DriverJob>

    constructor ()
      ensures jobs == map[]
    {
      jobs := map[];
    }

    method Send(id: JobId, retryLimit: nat, outcome: SendOutcome)
      modifies this
      ensures jobs == if outcome.Published() then old(jobs)[id := DriverJob(Created, 0, retryLimit)] else old(jobs)
    {
      if outcome.Published() {
        jobs := jobs[id := DriverJob(Created, 0, retryLimit)];
      }
    }
  }

  // ---------------------------------------------------------------- enqueue

  /** The row is committed before the job is published, and a job that could not be published gets a
      failed row, as far as the ledger can be written. */
  method Enqueue(ledger: JobLedger, boss: Boss, id: JobId, jobType: string, retryLimit: nat, now: int,
                 insertFaults: Faults, send: SendOutcome, message: string, failFaults: Faults)
    returns (r: Result<JobId, string>)
    modifies ledger, boss
    ensures r.Ok? <==> id !in old(ledger.store).rows && !insertFaults.Any() && send.Sent?
    ensures r.Ok? ==> r.value == id
    ensures boss.jobs == if id !in old(ledger.store).rows && !insertFaults.Any() && (send == Sent || send == Threw(true))
                         then old(boss.jobs)[id := DriverJob(Created, 0, retryLimit)] else old(boss.jobs)
    ensures ledger.store == AfterEnqueue(old(ledger.store), ledger.redact, id, jobType, now, insertFaults, send, message, failFaults)
  {
    var inserted := ledger.RecordQueued(id, jobType, now, insertFaults);
    if !inserted {
      return Err("insert");
    }
    boss.Send(id, retryLimit, send);
    if !send.Sent? {
      var _ := ledger.RecordFailed(id, message, now, failFaults);
      return Err(message);
    }
    r := Ok(id);
  }

  function AfterEnqueue(s: Store, redact: string -> string, id: JobId, jobType: string, now: int,
                        insertFaults: Faults, send: SendOutcome, message: string, failFaults: Faults): Store
  {
    if id in s.rows || insertFaults.Any() then s
    else
      var queued := Written(s, id, NewRow(jobType, now), None);
      if send.Sent? || failFaults.Any() then queued
      else Transitioned(queued, id, FailedPatch(redact(message), now), Some(redact(message)))
  }

  // ---------------------------------------------------------------- the batch handler

  /** What one attempt meets: which ledger writes fail, whether the handler or the hook throws. */
  datatype Script = Script(
    active: Faults, handler: Option<string>, completed: Faults, failure: Faults, hookThrows: bool,
    ledgerError: string, now: int)

  datatype JobResult = JobResult(id: JobId, completed: bool)

  /** What the handler does, in order. */
  datatype Act =
    | WroteActive(id: JobId, ok: bool)
    | RanHandler(id: JobId)
    | WroteCompleted(id: JobId, ok: bool)
    | WroteFailure(id: JobId, terminal: bool, ok: bool)
    | RanHook(id: JobId)

  /** The error the attempt ends in, if it does. */
  function AttemptError(s: Store, job: Fetched, x: Script): Option<string> {
    if job.id !in s.rows || x.active.Any() then Some(x.ledgerError)
    else if x.handler.Some? then x.handler
    else if x.completed.Any() then Some(x.ledgerError)
    else None
  }

  function AfterTry(s: Store, job: Fetched, x: Script): Store {
    if job.id !in s.rows || x.active.Any() then s
    else
      var active := Transitioned(s, job.id, ActivePatch(Some(job.retryCount + 1), x.now), None);
      if x.handler.Some? || x.completed.Any() then active
      else Transitioned(active, job.id, CompletedPatch(x.now), None)
  }

  function AfterCatch(s: Store, redact: string -> string, job: Fetched, error: string, x: Script): Store {
    if x.failure.Any() then s
    else if job.WillRetry() then
      Transitioned(s, job.id, RetryingPatch(redact(error), job.retryCount + 1, x.now), Some(redact(error)))
    else Transitioned(s, job.id, FailedPatch(redact(error), x.now), Some(redact(error)))
  }

  function AfterJob(s: Store, redact: string -> string, job: Fetched, x: Script): Store {
    match AttemptError(s, job, x)
    case None => AfterTry(s, job, x)
    case Some(error) => AfterCatch(AfterTry(s, job, x), redact, job, error, x)
  }

  function AfterBatch(s: Store, redact: string -> string, jobs: seq<Fetched>, xs: seq<Script>, n: nat): Store
    requires n <= |jobs| == |xs|
  {
    if n == 0 then s else AfterJob(AfterBatch(s, redact, jobs, xs, n - 1), redact, jobs[n - 1], xs[n - 1])
  }

  function TryActs(s: Store, job: Fetched, x: Script): seq<Act> {
    if job.id !in s.rows || x.active.Any() then [WroteActive(job.id, false)]
    else if x.handler.Some? then [WroteActive(job.id, true), RanHandler(job.id)]
    else [WroteActive(job.id, true), RanHandler(job.id), WroteCompleted(job.id, !x.completed.Any())]
  }

  function JobActs(s: Store, job: Fetched, x: Script, hasHook: bool): seq<Act> {
    if AttemptError(s, job, x).None? then TryActs(s, job, x)
    else
      TryActs(s, job, x)
      + [WroteFailure(job.id, !job.WillRetry(), job.id in s.rows && !x.failure.Any())]
      + (if !job.WillRetry() && hasHook then [RanHook(job.id)] else [])
  }

  function BatchActs(s: Store, redact: string -> string, jobs: seq<Fetched>, xs: seq<Script>, hasHook: bool, n: nat): seq<Act>
    requires n <= |jobs| == |xs|
  {
    if n == 0 then []
    else
      BatchActs(s, redact, jobs, xs, hasHook, n - 1)
      + JobActs(AfterBatch(s, redact, jobs, xs, n - 1), jobs[n - 1], xs[n - 1], hasHook)
  }

  function ResultOf(s: Store, job: Fetched, x: Script): (r: JobResult)
    ensures r.id == job.id
  {
    JobResult(job.id, AttemptError(s, job, x).None?)
  }

  /** Every fetched batch yields exactly one result per job, in order, whatever fails. */
  function BatchResults(s: Store, redact: string -> string, jobs: seq<Fetched>, xs: seq<Script>, n: nat): (r: seq<JobResult>)
    requires n <= |jobs| == |xs|
    ensures |r| == n && forall i :: 0 <= i < n ==> r[i].id == jobs[i].id
  {
    if n == 0 then []
    else
      BatchResults(s, redact, jobs, xs, n - 1) + [ResultOf(AfterBatch(s, redact, jobs, xs, n - 1), jobs[n - 1], xs[n - 1])]
  }

  /** The guarded part: claim the row, run the handler, complete the row. */
  method TryJob(ledger: JobLedger, job: Fetched, x: Script) returns (error: Option<string>, acts: seq<Act>)
    modifies ledger
    ensures ledger.store == AfterTry(old(ledger.store), job, x)
    ensures error == AttemptError(old(ledger.store), job, x)
    ensures acts == TryActs(old(ledger.store), job, x)
  {
    var ok := ledger.RecordActive(job.id, Some(job.retryCount + 1), x.now, x.active);
    if !ok {
      return Some(x.ledgerError), [WroteActive(job.id, false)];
    }
    if x.handler.Some? {
      return x.handler, [WroteActive(job.id, true), RanHandler(job.id)];
    }
    ok := ledger.RecordCompleted(job.id, x.now, x.completed);
    acts := [WroteActive(job.id, true), RanHandler(job.id), WroteCompleted(job.id, ok)];
    error := if ok then None else Some(x.ledgerError);
  }

  method RecordAttemptFailure(ledger: JobLedger, job: Fetched, error: string, x: Script) returns (ok: bool)
    modifies ledger
    ensures ledger.store == AfterCatch(old(ledger.store), ledger.redact, job, error, x)
    ensures ok == (job.id in old(ledger.store).rows && !x.failure.Any())
  {
    if job.WillRetry() {
      ok := ledger.RecordRetrying(job.id, error, job.retryCount + 1, x.now, x.failure);
    } else {
      ok := ledger.RecordFailed(job.id, error, x.now, x.failure);
    }
  }

  lemma TryKeepsRows(s: Store, job: Fetched, x: Script)
    ensures AfterTry(s, job, x).rows.Keys == s.rows.Keys
  {
  }

  /** The batch handler. Nothing a ledger write, a handler or a hook does throws out of the batch. */
  method HandleBatch(ledger: JobLedger, jobs: seq<Fetched>, xs: seq<Script>, hasHook: bool)
    returns (results: seq<JobResult>, acts: seq<Act>)
    requires |jobs| == |xs|
    modifies ledger
    ensures ledger.store == AfterBatch(old(ledger.store), ledger.redact, jobs, xs, |jobs|)
    ensures results == BatchResults(old(ledger.store), ledger.redact, jobs, xs, |jobs|)
    ensures acts == BatchActs(old(ledger.store), ledger.redact, jobs, xs, hasHook, |jobs|)
  {
    results, acts := [], [];
    ghost var s := ledger.store;
    for n := 0 to |jobs|
      invariant ledger.store == AfterBatch(s, ledger.redact, jobs, xs, n)
      invariant results == BatchResults(s, ledger.redact, jobs, xs, n)
      invariant acts == BatchActs(s, ledger.redact, jobs, xs, hasHook, n)
    {
      var job, x := jobs[n], xs[n];
      TryKeepsRows(ledger.store, job, x);
      var error, tried := TryJob(ledger, job, x);
      if error.None? {
        results := results + [JobResult(job.id, true)];
        acts := acts + tried;
        continue;
      }
      var ok := RecordAttemptFailure(ledger, job, error.value, x);
      var hook: seq<Act> := [];
      if !job.WillRetry() && hasHook {
        // A throwing hook is logged, and nothing else happens.
        hook := [RanHook(job.id)];
      }
      results := results + [JobResult(job.id, false)];
      acts := acts + (tried + [WroteFailure(job.id, !job.WillRetry(), ok)] + hook);
    }
  }

  /** Each job's result depends on its own attempt alone, run on the ledger its predecessors left. */
  lemma {:induction false} ResultAt(s: Store, redact: string -> string, jobs: seq<Fetched>, xs: seq<Script>, n: nat, i: nat)
    requires i < n <= |jobs| == |xs|
    ensures BatchResults(s, redact, jobs, xs, n)[i] == ResultOf(AfterBatch(s, redact, jobs, xs, i), jobs[i], xs[i])
  {
    if i < n - 1 {
      ResultAt(s, redact, jobs, xs, n - 1, i);
    }
  }

  predicate Exhausted(jobs: seq<Fetched>, id: JobId) {
    exists j :: j in jobs && j.id == id && !j.WillRetry()
  }

  /** Act `k` is a terminal-failure hook that came directly after the attempt to write the failure of
      the same job, which has no retries left. */
  predicate HookFollowsWrite(acts: seq<Act>, jobs: seq<Fetched>, k: nat)
    requires k < |acts| && acts[k].RanHook?
  {
    && k > 0 && acts[k - 1].WroteFailure? && acts[k - 1].terminal && acts[k - 1].id == acts[k].id
    && Exhausted(jobs, acts[k].id)
  }

  predicate HooksFollow(acts: seq<Act>, jobs: seq<Fetched>, hasHook: bool) {
    forall k :: 0 <= k < |acts| && acts[k].RanHook? ==> hasHook && HookFollowsWrite(acts, jobs, k)
  }

  lemma HooksInJob(s: Store, jobs: seq<Fetched>, job: Fetched, x: Script, hasHook: bool, acts: seq<Act>)
    requires acts == JobActs(s, job, x, hasHook) && job in jobs
    ensures HooksFollow(acts, jobs, hasHook)
  {
    assert !job.WillRetry() ==> Exhausted(jobs, job.id);
  }

  lemma HooksConcat(a: seq<Act>, b: seq<Act>, jobs: seq<Fetched>, hasHook: bool)
    requires HooksFollow(a, jobs, hasHook) && HooksFollow(b, jobs, hasHook)
    ensures HooksFollow(a + b, jobs, hasHook)
  {
    forall k | 0 <= k < |a + b| && (a + b)[k].RanHook?
      ensures hasHook && HookFollowsWrite(a + b, jobs, k)
    {
      if k < |a| {
        assert a[k].RanHook? && HookFollowsWrite(a, jobs, k);
      } else {
        assert b[k - |a|].RanHook? && HookFollowsWrite(b, jobs, k - |a|);
      }
    }
  }

  lemma BatchStep(s: Store, redact: string -> string, jobs: seq<Fetched>, xs: seq<Script>, hasHook: bool, n: nat)
    returns (more: seq<Act>)
    requires 0 < n <= |jobs| == |xs|
    ensures BatchActs(s, redact, jobs, xs, hasHook, n) == BatchActs(s, redact, jobs, xs, hasHook, n - 1) + more
    ensures HooksFollow(more, jobs, hasHook)
  {
    more := JobActs(AfterBatch(s, redact, jobs, xs, n - 1), jobs[n - 1], xs[n - 1], hasHook);
    HooksInJob(AfterBatch(s, redact, jobs, xs, n - 1), jobs, jobs[n - 1], xs[n - 1], hasHook, more);
  }

  /** The terminal-failure hook runs only where there is one, and always right behind the attempt to
      write the failure that it reports. */
  lemma {:induction false} HooksFollowTerminalWrites(s: Store, redact: string -> string, jobs: seq<Fetched>,
                                                     xs: seq<Script>, hasHook: bool, n: nat)
    requires n <= |jobs| == |xs|
    ensures HooksFollow(BatchActs(s, redact, jobs, xs, hasHook, n), jobs, hasHook)
  {
    if n > 0 {
      HooksFollowTerminalWrites(s, redact, jobs, xs, hasHook, n - 1);
      var more := BatchStep(s, redact, jobs, xs, hasHook, n);
      HooksConcat(BatchActs(s, redact, jobs, xs, hasHook, n - 1), more, jobs, hasHook);
    }
  }

  /** When the ledger could be written, the row says exactly what the driver will do with the result:
      completed, queued again for a retry, or failed for good. */
  lemma RowSaysWhatTheDriverDoes(s: Store, redact: string -> string, job: Fetched, x: Script)
    requires job.id in s.rows && !x.failure.Any()
    ensures var after := AfterJob(s, redact, job, x);
            && after.rows.Keys == s.rows.Keys
            && (forall id :: id in s.rows && id != job.id ==> after.rows[id] == s.rows[id])
            && after.rows[job.id].status
               == (if AttemptError(s, job, x).None? then Completed else if job.WillRetry() then Queued else Failed)
            && (!x.active.Any() || job.WillRetry() ==> after.rows[job.id].attempts == job.retryCount + 1)
  {
  }
}
