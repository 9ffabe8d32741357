/** Every interleaving of enqueues, attempts, the driver and the boot sweep
    (packages/jobs/src/queue.ts): pg-boss is the environment. Each step is one database transaction,
    one call into the driver, or the outcome of a handler or hook. */
module QueueRuns {
  import opened Common
  import opened Ledger
  import opened JobQueue

  datatype Pc = Claiming | Handling | Finishing | Failing(message: string) | Hooking | Reporting(completed: bool)

  /** One attempt of a job, as fetched: its retry count is the driver's at the time of the fetch. */
  datatype Attempt = Attempt(job: Fetched, pc: Pc)

  /** An `enqueue` whose row is committed: about to send, or about to record that sending failed. */
  datatype Pending = ToSend(retryLimit: nat) | ToFail

  /** `blamed` holds the jobs whose current 'failed' row was not written by an attempt: the sweep wrote
      it, or an enqueue whose send threw although the job had been published. */
  datatype World = World(
    ledger: Store, pending: map<JobId, Pending>, driver: map<JobId, DriverJob>,
    attempts: map<nat, Attempt>, hooks: seq<JobId>, blamed: set<JobId>)

  const START := World(Store(map[], []), map[], map[], map[], [], {})

  datatype Step =
    // enqueue
    | InsertRow(id: JobId, jobType: string, retryLimit: nat, now: int)
    | Send(id: JobId, outcome: SendOutcome)
    | RecordSendFailure(id: JobId, text: string, now: int, ok: bool)
    | AbandonEnqueue(id: JobId)
    // the driver
    | Fetch(t: nat, id: JobId)
    | Report(t: nat)
    | Expire(id: JobId)
    // an attempt; `ok` says whether the ledger write committed
    | WriteActive(t: nat, now: int, ok: bool, error: string)
    | HandlerEnds(t: nat, thrown: Option<string>)
    | WriteCompleted(t: nat, now: int, ok: bool, error: string)
    | WriteFailure(t: nat, text: string, now: int, ok: bool)
    | RunHook(t: nat)
    | Crash(t: nat)
    // the boot sweep
    | Sweep(candidates: seq<Candidate>, now: int)

  predicate Redispatchable(j: DriverJob) {
    j.state.Created? || j.state.Retry?
  }

  function AfterAttempt(j: DriverJob, completed: bool): DriverJob {
    if !j.state.Dispatched? then j
    else if completed then j.(state := Done)
    else if j.retryCount < j.retryLimit then j.(state := Retry)
    else j.(state := Dead)
  }

  predicate At(w: World, t: nat, pc: Pc) {
    t in w.attempts && w.attempts[t].pc == pc
  }

  predicate Enabled(w: World, step: Step) {
    match step
    case InsertRow(id, _, _, _) => id !in w.ledger.rows
    case Send(id, _) => id in w.pending && w.pending[id].ToSend?
    case RecordSendFailure(id, _, _, _) => id in w.pending && w.pending[id].ToFail?
    case AbandonEnqueue(id) => id in w.pending
    case Fetch(t, id) => t !in w.attempts && id in w.driver && Redispatchable(w.driver[id])
    case Report(t) => t in w.attempts && w.attempts[t].pc.Reporting?
    case Expire(id) => id in w.driver && w.driver[id].state.Dispatched?
    case WriteActive(t, _, ok, _) => At(w, t, Claiming) && (ok ==> w.attempts[t].job.id in w.ledger.rows)
    case HandlerEnds(t, _) => At(w, t, Handling)
    case WriteCompleted(t, _, _, _) => At(w, t, Finishing)
    case WriteFailure(t, _, _, _) => t in w.attempts && w.attempts[t].pc.Failing?
    case RunHook(t) => At(w, t, Hooking)
    case Crash(t) => t in w.attempts
    case Sweep(_, _) => true
  }

  function Moved(w: World, t: nat, pc: Pc): World
    requires t in w.attempts
  {
    w.(attempts := w.attempts[t := Attempt(w.attempts[t].job, pc)])
  }

  function FetchedJob(j: DriverJob, id: JobId): Fetched {
    Fetched(id, if j.state.Retry? then j.retryCount + 1 else j.retryCount, j.retryLimit)
  }

  function Unblamed(w: World, id: JobId, ledger: Store): World {
    w.(ledger := ledger, blamed := w.blamed - {id})
  }

  function SweptIds(w: World, candidates: seq<Candidate>): set<JobId> {
    set id | id in w.ledger.rows && StaleCandidate(w.ledger, candidates, |candidates|, id)
  }

  function Next(w: World, step: Step): World
    requires Enabled(w, step)
  {
    match step
    case InsertRow(id, jobType, retryLimit, now) =>
      w.(ledger := Written(w.ledger, id, NewRow(jobType, now), None), pending := w.pending[id := ToSend(retryLimit)])
    case Send(id, outcome) =>
      w.(pending := if outcome.Sent? then w.pending - {id} else w.pending[id := ToFail],
         driver := if outcome.Published() then w.driver[id := DriverJob(Created, 0, w.pending[id].retryLimit)] else w.driver)
    case RecordSendFailure(id, text, now, ok) =>
      if ok then
        w.(ledger := Transitioned(w.ledger, id, FailedPatch(text, now), Some(text)), pending := w.pending - {id},
           blamed := if id in w.driver then w.blamed + {id} else w.blamed)
      else w.(pending := w.pending - {id})
    case AbandonEnqueue(id) => w.(pending := w.pending - {id})
    case Fetch(t, id) =>
      var job := FetchedJob(w.driver[id], id);
      w.(driver := w.driver[id := DriverJob(Dispatched, job.retryCount, job.retryLimit)],
         attempts := w.attempts[t := Attempt(job, Claiming)])
    case Report(t) =>
      var id := w.attempts[t].job.id;
      w.(attempts := w.attempts - {t},
         driver := if id in w.driver then w.driver[id := AfterAttempt(w.driver[id], w.attempts[t].pc.completed)] else w.driver)
    case Expire(id) => w.(driver := w.driver[id := AfterAttempt(w.driver[id], false)])
    case WriteActive(t, now, ok, error) =>
      var job := w.attempts[t].job;
      if ok then
        Moved(Unblamed(w, job.id, Transitioned(w.ledger, job.id, ActivePatch(Some(job.retryCount + 1), now), None)), t, Handling)
      else Moved(w, t, Failing(error))
    case HandlerEnds(t, thrown) => Moved(w, t, if thrown.Some? then Failing(thrown.value) else Finishing)
    case WriteCompleted(t, now, ok, error) =>
      var id := w.attempts[t].job.id;
      if ok then Moved(Unblamed(w, id, Transitioned(w.ledger, id, CompletedPatch(now), None)), t, Reporting(true))
      else Moved(w, t, Failing(error))
    case WriteFailure(t, text, now, ok) =>
      var job := w.attempts[t].job;
      var patch := if job.WillRetry() then RetryingPatch(text, job.retryCount + 1, now) else FailedPatch(text, now);
      var after := if ok then Unblamed(w, job.id, Transitioned(w.ledger, job.id, patch, Some(text))) else w;
      Moved(after, t, if job.WillRetry() then Reporting(false) else Hooking)
    case RunHook(t) => Moved(w.(hooks := w.hooks + [w.attempts[t].job.id]), t, Reporting(false))
    case Crash(t) => w.(attempts := w.attempts - {t})
    case Sweep(candidates, now) =>
      w.(ledger := SweptRows(w.ledger, candidates, now, |candidates|), blamed := w.blamed + SweptIds(w, candidates))
  }

  predicate Legal(steps: seq<Step>)
    decreases |steps|, 0
  {
    steps == [] || (Legal(steps[..|steps| - 1]) && Enabled(After(steps[..|steps| - 1]), steps[|steps| - 1]))
  }

  function After(steps: seq<Step>): World
    requires Legal(steps)
    decreases |steps|, 1
  {
    if steps == [] then START else Next(After(steps[..|steps| - 1]), steps[|steps| - 1])
  }

  // ---------------------------------------------------------------- the invariant

  /** A published job, and an enqueue under way, has its row. */
  predicate RowsComeFirst(w: World) {
    && w.driver.Keys <= w.ledger.rows.Keys
    && w.pending.Keys <= w.ledger.rows.Keys
    && forall id :: id in w.pending && w.pending[id].ToSend? ==> id !in w.driver
  }

  predicate DriverCounts(w: World) {
    forall id :: id in w.driver
      ==> && w.driver[id].retryCount <= w.driver[id].retryLimit
          && (w.driver[id].state.Retry? ==> w.driver[id].retryCount < w.driver[id].retryLimit)
  }

  /** An attempt carries the driver's limit and a retry count the driver has reached. */
  predicate AttemptFits(w: World, a: Attempt) {
    && a.job.id in w.driver
    && a.job.retryLimit == w.driver[a.job.id].retryLimit
    && a.job.retryCount <= w.driver[a.job.id].retryCount
    && !w.driver[a.job.id].state.Created?
    && (a.pc.Hooking? ==> !a.job.WillRetry())
  }

  predicate AttemptsFit(w: World) {
    && (forall t :: t in w.attempts ==> AttemptFits(w, w.attempts[t]))
    && (forall t, u :: t in w.attempts && u in w.attempts && t != u && w.attempts[t].job.id == w.attempts[u].job.id
          ==> w.attempts[t].job.retryCount != w.attempts[u].job.retryCount)
  }

  /** A row that says failed is a job the driver is through with, unless the row is blamed. */
  predicate FailedMeansFinal(w: World) {
    forall id :: id in w.ledger.rows && w.ledger.rows[id].status.Failed? && id !in w.blamed
      ==> && (id in w.driver ==> !Redispatchable(w.driver[id]) && w.driver[id].retryCount == w.driver[id].retryLimit)
          && (id in w.pending ==> w.pending[id].ToFail?)
          && (id in w.pending ==> id in w.driver)
  }

  predicate HookSpent(w: World, id: JobId) {
    && id in w.driver && w.driver[id].retryCount == w.driver[id].retryLimit && !Redispatchable(w.driver[id])
    && forall t :: t in w.attempts && w.attempts[t].job.id == id && !w.attempts[t].job.WillRetry()
                   ==> w.attempts[t].pc.Reporting?
  }

  predicate HooksSpent(w: World) {
    && (forall i :: 0 <= i < |w.hooks| ==> HookSpent(w, w.hooks[i]))
    && (forall i, j :: 0 <= i < j < |w.hooks| ==> w.hooks[i] != w.hooks[j])
  }

  predicate Inv(w: World) {
    RowsComeFirst(w) && DriverCounts(w) && AttemptsFit(w) && FailedMeansFinal(w) && HooksSpent(w)
  }

  lemma SweepKeepsRows(w: World, candidates: seq<Candidate>, now: int)
    ensures var after := SweptRows(w.ledger, candidates, now, |candidates|);
            && after.rows.Keys == w.ledger.rows.Keys
            && forall id :: id in w.ledger.rows && id !in SweptIds(w, candidates) ==> after.rows[id] == w.ledger.rows[id]
  {
    SweepTouchesOnlyStaleRows(w.ledger, candidates, now, |candidates|);
  }

  lemma KeepsRowsFirst(w: World, step: Step)
    requires Inv(w) && Enabled(w, step)
    ensures RowsComeFirst(Next(w, step))
  {
    if step.Sweep? {
      SweepKeepsRows(w, step.candidates, step.now);
    }
  }

  lemma KeepsCounts(w: World, step: Step)
    requires Inv(w) && Enabled(w, step)
    ensures DriverCounts(Next(w, step))
  {
  }

  lemma KeepsAttemptFits(w: World, step: Step, t: nat)
    requires Inv(w) && Enabled(w, step) && t in Next(w, step).attempts
    ensures AttemptFits(Next(w, step), Next(w, step).attempts[t])
  {
    assert t in w.attempts ==> AttemptFits(w, w.attempts[t]);
  }

  lemma KeepsCountsApart(w: World, step: Step, t: nat, u: nat)
    requires Inv(w) && Enabled(w, step) && t in Next(w, step).attempts && u in Next(w, step).attempts && t != u
    requires Next(w, step).attempts[t].job.id == Next(w, step).attempts[u].job.id
    ensures Next(w, step).attempts[t].job.retryCount != Next(w, step).attempts[u].job.retryCount
  {
    assert t in w.attempts ==> AttemptFits(w, w.attempts[t]);
    assert u in w.attempts ==> AttemptFits(w, w.attempts[u]);
  }

  lemma KeepsAttempts(w: World, step: Step)
    requires Inv(w) && Enabled(w, step)
    ensures AttemptsFit(Next(w, step))
  {
    var after := Next(w, step);
    forall t | t in after.attempts
      ensures AttemptFits(after, after.attempts[t])
    {
      KeepsAttemptFits(w, step, t);
    }
    forall t, u | t in after.attempts && u in after.attempts && t != u && after.attempts[t].job.id == after.attempts[u].job.id
      ensures after.attempts[t].job.retryCount != after.attempts[u].job.retryCount
    {
      KeepsCountsApart(w, step, t, u);
    }
  }

  lemma KeepsFailedFinal(w: World, step: Step)
    requires Inv(w) && Enabled(w, step)
    ensures FailedMeansFinal(Next(w, step))
  {
    if step.Sweep? {
      SweepKeepsRows(w, step.candidates, step.now);
    }
  }

  lemma KeepsHookSpent(w: World, step: Step, id: JobId)
    requires Inv(w) && Enabled(w, step) && HookSpent(w, id)
    ensures HookSpent(Next(w, step), id)
  {
  }

  /** The attempt that runs the hook is the last one the driver will ever dispatch. */
  lemma RunHookSpends(w: World, t: nat)
    requires Inv(w) && Enabled(w, RunHook(t))
    ensures var id := w.attempts[t].job.id;
            id !in w.hooks && HookSpent(Next(w, RunHook(t)), id)
  {
    var id := w.attempts[t].job.id;
    assert AttemptFits(w, w.attempts[t]);
    assert !HookSpent(w, id);
  }

  lemma KeepsHooks(w: World, step: Step)
    requires Inv(w) && Enabled(w, step)
    ensures HooksSpent(Next(w, step))
  {
    forall i | 0 <= i < |w.hooks|
      ensures HookSpent(Next(w, step), w.hooks[i])
    {
      KeepsHookSpent(w, step, w.hooks[i]);
    }
    if step.RunHook? {
      RunHookSpends(w, step.t);
      assert Next(w, step).hooks == w.hooks + [w.attempts[step.t].job.id];
    } else {
      assert Next(w, step).hooks == w.hooks;
    }
  }

  lemma {:induction false} Reachable(steps: seq<Step>)
    requires Legal(steps)
    ensures Inv(After(steps))
  {
    if steps != [] {
      var w, step := After(steps[..|steps| - 1]), steps[|steps| - 1];
      Reachable(steps[..|steps| - 1]);
      KeepsRowsFirst(w, step);
      KeepsCounts(w, step);
      KeepsAttempts(w, step);
      KeepsFailedFinal(w, step);
      KeepsHooks(w, step);
    }
  }

  // ---------------------------------------------------------------- what holds in every run

  /** Whatever fails, crashes or expires: a published job has its ledger row, and no job's
      terminal-failure hook runs twice, nor before the driver is through with the job. */
  lemma PublishedJobsHaveRows(steps: seq<Step>)
    requires Legal(steps)
    ensures var w := After(steps);
            && (forall id :: id in w.driver ==> id in w.ledger.rows)
            && (forall i, j :: 0 <= i < j < |w.hooks| ==> w.hooks[i] != w.hooks[j])
            && (forall id :: id in w.hooks ==> id in w.driver && !Redispatchable(w.driver[id]))
  {
    Reachable(steps);
    var w := After(steps);
    forall id | id in w.hooks
      ensures id in w.driver && !Redispatchable(w.driver[id])
    {
      var i :| 0 <= i < |w.hooks| && w.hooks[i] == id;
      assert HookSpent(w, w.hooks[i]);
    }
  }

  predicate Contradicts(w: World, id: JobId) {
    id in w.ledger.rows && w.ledger.rows[id].status.Failed? && id in w.driver && Redispatchable(w.driver[id])
  }

  /** The two ways to fail a row other than by an attempt that has no retries left. */
  predicate Blames(step: Step) {
    step.Sweep? || (step.Send? && step.outcome == Threw(true))
  }

  lemma {:induction false} OnlyTheseBlame(steps: seq<Step>)
    requires Legal(steps)
    requires forall step :: step in steps ==> !Blames(step)
    ensures After(steps).blamed == {}
    ensures forall id :: id in After(steps).pending ==> id !in After(steps).driver
  {
    if steps != [] {
      var front, w, step := steps[..|steps| - 1], After(steps[..|steps| - 1]), steps[|steps| - 1];
      OnlyTheseBlame(front);
      Reachable(front);
      assert step in steps;
    }
  }

  /** A row says 'failed' only when the driver will not dispatch the job again, in every run in which
      no send is lost after publishing and the boot sweep does not run. In any run, a row that
      contradicts the driver was failed by one of those two. */
  lemma FailedRowsAreFinal(steps: seq<Step>, id: JobId)
    requires Legal(steps)
    ensures Contradicts(After(steps), id) ==> id in After(steps).blamed
    ensures (forall step :: step in steps ==> !Blames(step)) ==> !Contradicts(After(steps), id)
  {
    Reachable(steps);
    if forall step :: step in steps ==> !Blames(step) {
      OnlyTheseBlame(steps);
    }
  }

  /** A send that throws after publishing leaves a failed row for a job that is about to run. */
  lemma LostSendContradicts()
    ensures exists steps :: Legal(steps) && Contradicts(After(steps), "j")
  {
    var a := InsertRow("j", "scan", 2, 1);
    var b := Send("j", Threw(true));
    var c := RecordSendFailure("j", "socket closed", 2, true);
    assert [a][..0] == [] && [a, b][..1] == [a] && [a, b, c][..2] == [a, b];
    var w1 := Next(START, a);
    assert Legal([a]) && After([a]) == w1;
    var w2 := Next(w1, b);
    assert Legal([a, b]) && After([a, b]) == w2;
    var w3 := Next(w2, c);
    assert Legal([a, b, c]) && After([a, b, c]) == w3;
    assert w3.driver["j"] == DriverJob(Created, 0, 2);
    assert w3.ledger.rows["j"].status.Failed?;
    assert Contradicts(w3, "j");
  }

  /** The driver has this job waiting, or runs it and will run it again should this attempt fail. */
  predicate MayRunAgain(j: DriverJob) {
    Redispatchable(j) || (j.state.Dispatched? && j.retryCount < j.retryLimit)
  }

  /** The row says failed, and the driver may still dispatch the job. */
  predicate FailedEarly(w: World, id: JobId) {
    id in w.ledger.rows && w.ledger.rows[id].status.Failed? && id in w.driver && MayRunAgain(w.driver[id])
  }

  predicate IsDriverStep(step: Step) {
    step.Fetch? || step.Report? || step.Expire?
  }

  /** Such a row contradicts the driver now or after one more step of the driver, and no other does. */
  lemma FailedEarlyIffContradictsSoon(w: World, id: JobId)
    ensures FailedEarly(w, id)
       <==> || Contradicts(w, id)
            || exists step :: IsDriverStep(step) && Enabled(w, step) && Contradicts(Next(w, step), id)
  {
    if FailedEarly(w, id) && !Contradicts(w, id) {
      var step := Expire(id);
      assert IsDriverStep(step) && Enabled(w, step) && Contradicts(Next(w, step), id);
    }
  }

  /** The sweep brings such a row about exactly when it fails the row of a job that the driver may still
      run: one that waits, or one that is being run and has retries left. */
  lemma SweepContradictsIff(w: World, candidates: seq<Candidate>, now: int, id: JobId)
    requires Inv(w) && !FailedEarly(w, id)
    ensures FailedEarly(Next(w, Sweep(candidates, now)), id)
       <==> id in SweptIds(w, candidates) && id in w.driver && MayRunAgain(w.driver[id])
  {
    SweepTouchesOnlyStaleRows(w.ledger, candidates, now, |candidates|);
  }

  /** The causes. The sweep fails the row of a job the driver may still run; the failure of a send is
      recorded although the job was published and may still run; or a job is published whose row the
      sweep has failed by then. */
  predicate FailsEarly(w: World, step: Step, id: JobId) {
    match step
    case Sweep(candidates, _) => id in SweptIds(w, candidates) && id in w.driver && MayRunAgain(w.driver[id])
    case RecordSendFailure(sent, _, _, ok) => sent == id && ok && id in w.driver && MayRunAgain(w.driver[id])
    case Send(sent, outcome) =>
      sent == id && outcome.Published() && id in w.ledger.rows && w.ledger.rows[id].status.Failed?
    case _ => false
  }

  /** No other step brings such a row about. */
  lemma StepFailsEarlyIff(w: World, step: Step, id: JobId)
    requires Inv(w) && Enabled(w, step) && !FailedEarly(w, id)
    ensures FailedEarly(Next(w, step), id) <==> FailsEarly(w, step, id)
  {
    match step
    case Sweep(candidates, now) => SweepContradictsIff(w, candidates, now, id);
    case WriteFailure(t, _, _, _) => assert AttemptFits(w, w.attempts[t]);
    case _ =>
  }

  lemma {:induction false} LegalPrefix(steps: seq<Step>, n: nat)
    requires Legal(steps) && n <= |steps|
    ensures Legal(steps[..n])
  {
    if n < |steps| {
      LegalPrefix(steps[..|steps| - 1], n);
      assert steps[..|steps| - 1][..n] == steps[..n];
    } else {
      assert steps[..n] == steps;
    }
  }

  predicate EarlyAt(steps: seq<Step>, n: nat, id: JobId) {
    n <= |steps| && Legal(steps[..n]) && FailedEarly(After(steps[..n]), id)
  }

  predicate CausedAt(steps: seq<Step>, k: nat, id: JobId) {
    k < |steps| && Legal(steps[..k]) && FailsEarly(After(steps[..k]), steps[k], id)
  }

  lemma LastStepFailsEarlyIff(steps: seq<Step>, id: JobId)
    requires Legal(steps) && steps != []
    ensures var w, step := After(steps[..|steps| - 1]), steps[|steps| - 1];
            !FailedEarly(w, id) ==> (FailedEarly(After(steps), id) <==> FailsEarly(w, step, id))
  {
    var w, step := After(steps[..|steps| - 1]), steps[|steps| - 1];
    Reachable(steps[..|steps| - 1]);
    if !FailedEarly(w, id) {
      StepFailsEarlyIff(w, step, id);
    }
  }

  lemma EarlyStep(steps: seq<Step>, k: nat, id: JobId)
    requires Legal(steps) && k < |steps|
    ensures !EarlyAt(steps, k, id) ==> (EarlyAt(steps, k + 1, id) <==> CausedAt(steps, k, id))
  {
    var front := steps[..k + 1];
    LegalPrefix(steps, k);
    LegalPrefix(steps, k + 1);
    assert front[..|front| - 1] == steps[..k] && front[|front| - 1] == steps[k];
    LastStepFailsEarlyIff(front, id);
  }

  lemma StartsClean(steps: seq<Step>, id: JobId)
    ensures !EarlyAt(steps, 0, id)
  {
    assert steps[..0] == [];
  }

  lemma {:induction false} FirstEarly(steps: seq<Step>, n: nat, id: JobId)
    requires Legal(steps) && EarlyAt(steps, n, id)
    ensures exists k :: 0 <= k < n && CausedAt(steps, k, id)
  {
    StartsClean(steps, id);
    if EarlyAt(steps, n - 1, id) {
      FirstEarly(steps, n - 1, id);
    } else {
      EarlyStep(steps, n - 1, id);
    }
  }

  /** In any run, some row is failed while the driver may still run its job exactly when the run has
      one of the three causes. */
  lemma FailedEarlyIffCaused(steps: seq<Step>, id: JobId)
    requires Legal(steps)
    ensures (exists n: nat :: EarlyAt(steps, n, id)) <==> (exists k: nat :: CausedAt(steps, k, id))
  {
    if n: nat :| EarlyAt(steps, n, id) {
      FirstEarly(steps, n, id);
    }
    if k: nat :| CausedAt(steps, k, id) {
      EarlyStep(steps, k, id);
    }
  }

  // ---------------------------------------------------------------- runs in which nothing is lost

  /** No attempt is lost, every write of an attempt commits, and no row is blamed. */
  predicate Smooth(step: Step) {
    match step
    case WriteActive(_, _, ok, _) => ok
    case WriteCompleted(_, _, ok, _) => ok
    case WriteFailure(_, _, _, ok) => ok
    case Crash(_) => false
    case Expire(_) => false
    case _ => !Blames(step)
  }

  /** What the row of a job says while the driver is not running it. */
  function Resting(s: DriverState): Status {
    match s
    case Done => Completed
    case Dead => Failed
    case _ => Queued
  }

  function StatusAt(a: Attempt): Status {
    match a.pc
    case Claiming => Queued
    case Handling => Active
    case Finishing => Active
    case Failing(_) => Active
    case Hooking => Failed
    case Reporting(completed) => if completed then Completed else if a.job.WillRetry() then Queued else Failed
  }

  predicate RestingRowsAgree(w: World) {
    forall id :: id in w.driver && id in w.ledger.rows && !w.driver[id].state.Dispatched?
      ==> w.ledger.rows[id].status == Resting(w.driver[id].state)
  }

  predicate PendingRowsQueued(w: World) {
    forall id :: id in w.pending && id in w.ledger.rows ==> w.ledger.rows[id].status.Queued?
  }

  predicate AttemptInStep(w: World, a: Attempt) {
    && a.job.id in w.driver && a.job.id in w.ledger.rows
    && w.driver[a.job.id] == DriverJob(Dispatched, a.job.retryCount, a.job.retryLimit)
    && w.ledger.rows[a.job.id].status == StatusAt(a)
  }

  predicate AttemptsInStep(w: World) {
    && (forall t :: t in w.attempts ==> AttemptInStep(w, w.attempts[t]))
    && (forall t, u :: t in w.attempts && u in w.attempts && w.attempts[t].job.id == w.attempts[u].job.id ==> t == u)
  }

  predicate InStep(w: World) {
    && RestingRowsAgree(w) && PendingRowsQueued(w) && AttemptsInStep(w)
    && w.blamed == {} && forall id :: id in w.pending ==> id !in w.driver
  }

  lemma KeepsRestingRows(w: World, step: Step)
    requires Inv(w) && InStep(w) && Enabled(w, step) && Smooth(step)
    ensures RestingRowsAgree(Next(w, step))
  {
  }

  lemma KeepsPendingRows(w: World, step: Step)
    requires Inv(w) && InStep(w) && Enabled(w, step) && Smooth(step)
    ensures PendingRowsQueued(Next(w, step))
  {
  }

  /** The attempt, if any, that a step moves. */
  function MovedBy(step: Step): Option<nat> {
    match step
    case Fetch(t, _) => Some(t)
    case WriteActive(t, _, _, _) => Some(t)
    case HandlerEnds(t, _) => Some(t)
    case WriteCompleted(t, _, _, _) => Some(t)
    case WriteFailure(t, _, _, _) => Some(t)
    case RunHook(t) => Some(t)
    case _ => None
  }

  lemma KeepsMovedAttempt(w: World, step: Step, t: nat)
    requires Inv(w) && InStep(w) && Enabled(w, step) && Smooth(step) && MovedBy(step) == Some(t)
    requires t in Next(w, step).attempts
    ensures AttemptInStep(Next(w, step), Next(w, step).attempts[t])
  {
    assert t in w.attempts ==> AttemptInStep(w, w.attempts[t]);
  }

  /** Any other attempt is of another job, whose row and driver entry the step leaves alone. */
  lemma KeepsOtherAttempt(w: World, step: Step, t: nat)
    requires Inv(w) && InStep(w) && Enabled(w, step) && Smooth(step) && MovedBy(step) != Some(t)
    requires t in Next(w, step).attempts
    ensures AttemptInStep(Next(w, step), Next(w, step).attempts[t])
  {
    assert AttemptInStep(w, w.attempts[t]);
  }

  lemma KeepsAttemptInStep(w: World, step: Step, t: nat)
    requires Inv(w) && InStep(w) && Enabled(w, step) && Smooth(step) && t in Next(w, step).attempts
    ensures AttemptInStep(Next(w, step), Next(w, step).attempts[t])
  {
    if MovedBy(step) == Some(t) {
      KeepsMovedAttempt(w, step, t);
    } else {
      KeepsOtherAttempt(w, step, t);
    }
  }

  lemma KeepsAttemptsApart(w: World, step: Step, t: nat, u: nat)
    requires Inv(w) && InStep(w) && Enabled(w, step) && Smooth(step)
    requires t in Next(w, step).attempts && u in Next(w, step).attempts
    requires Next(w, step).attempts[t].job.id == Next(w, step).attempts[u].job.id
    ensures t == u
  {
    assert t in w.attempts ==> AttemptInStep(w, w.attempts[t]);
    assert u in w.attempts ==> AttemptInStep(w, w.attempts[u]);
  }

  /** When nothing is lost, the admin's table and the driver agree on every job that is not being run:
      waiting, completed, or failed for good. */
  lemma {:induction false} LedgerAgreesWithDriver(steps: seq<Step>)
    requires Legal(steps)
    requires forall step :: step in steps ==> Smooth(step)
    ensures InStep(After(steps))
    ensures var w := After(steps);
            forall id :: id in w.driver && !w.driver[id].state.Dispatched?
              ==> id in w.ledger.rows && w.ledger.rows[id].status == Resting(w.driver[id].state)
  {
    Reachable(steps);
    OnlyTheseBlame(steps);
    if steps != [] {
      var front, step := steps[..|steps| - 1], steps[|steps| - 1];
      LedgerAgreesWithDriver(front);
      Reachable(front);
      assert step in steps;
      KeepsRestingRows(After(front), step);
      KeepsPendingRows(After(front), step);
      forall t | t in After(steps).attempts
        ensures AttemptInStep(After(steps), After(steps).attempts[t])
      {
        KeepsAttemptInStep(After(front), step, t);
      }
      forall t, u | t in After(steps).attempts && u in After(steps).attempts
                    && After(steps).attempts[t].job.id == After(steps).attempts[u].job.id
        ensures t == u
      {
        KeepsAttemptsApart(After(front), step, t, u);
      }
    }
  }

  // ---------------------------------------------------------------- the batch handler is these steps

  /** The steps of one attempt, given how its script goes. */
  function AttemptSteps(s: Store, redact: string -> string, t: nat, job: Fetched, x: Script): seq<Step> {
    var claim := WriteActive(t, x.now, job.id in s.rows && !x.active.Any(), x.ledgerError);
    var run := if claim.ok then [HandlerEnds(t, x.handler)] else [];
    var finish := if claim.ok && x.handler.None? then [WriteCompleted(t, x.now, !x.completed.Any(), x.ledgerError)] else [];
    var error := AttemptError(s, job, x);
    [claim] + run + finish
    + (if error.None? then [] else [WriteFailure(t, redact(error.value), x.now, !x.failure.Any())])
  }

  predicate LegalFrom(w: World, steps: seq<Step>)
    decreases |steps|, 0
  {
    steps == [] || (Enabled(w, steps[0]) && LegalFrom(Next(w, steps[0]), steps[1..]))
  }

  function RunFrom(w: World, steps: seq<Step>): World
    requires LegalFrom(w, steps)
    decreases |steps|, 1
  {
    if steps == [] then w else RunFrom(Next(w, steps[0]), steps[1..])
  }

  /** Where the batch handler leaves an attempt. */
  function Handled(s: Store, job: Fetched, x: Script): Pc {
    if AttemptError(s, job, x).None? then Reporting(true) else if job.WillRetry() then Reporting(false) else Hooking
  }

  ghost predicate IsHandledBy(w: World, redact: string -> string, t: nat, job: Fetched, x: Script, after: World) {
    after.ledger == AfterJob(w.ledger, redact, job, x) && At(after, t, Handled(w.ledger, job, x))
  }

  lemma ClaimFails(w: World, redact: string -> string, t: nat, job: Fetched, x: Script)
    requires t in w.attempts && w.attempts[t] == Attempt(job, Claiming)
    requires job.id !in w.ledger.rows || x.active.Any()
    ensures var steps := AttemptSteps(w.ledger, redact, t, job, x);
            LegalFrom(w, steps) && IsHandledBy(w, redact, t, job, x, RunFrom(w, steps))
  {
    var a := WriteActive(t, x.now, false, x.ledgerError);
    var b := WriteFailure(t, redact(x.ledgerError), x.now, !x.failure.Any());
    assert AttemptSteps(w.ledger, redact, t, job, x) == [a, b];
    RunTwo(w, a, b);
  }

  /** The row is claimed and the handler has ended. */
  function Ran(w: World, t: nat, job: Fetched, x: Script): World
    requires t in w.attempts && w.attempts[t] == Attempt(job, Claiming)
    requires job.id in w.ledger.rows
  {
    Next(Next(w, WriteActive(t, x.now, true, x.ledgerError)), HandlerEnds(t, x.handler))
  }

  lemma AfterRan(w: World, t: nat, job: Fetched, x: Script)
    requires t in w.attempts && w.attempts[t] == Attempt(job, Claiming)
    requires job.id in w.ledger.rows
    ensures var after := Ran(w, t, job, x);
            && after.ledger == Transitioned(w.ledger, job.id, ActivePatch(Some(job.retryCount + 1), x.now), None)
            && t in after.attempts
            && after.attempts[t] == Attempt(job, if x.handler.Some? then Failing(x.handler.value) else Finishing)
  {
  }

  lemma FailureIsTheCatch(w: World, redact: string -> string, t: nat, job: Fetched, error: string, x: Script)
    requires t in w.attempts && w.attempts[t].job == job && w.attempts[t].pc.Failing?
    ensures var after := Next(w, WriteFailure(t, redact(error), x.now, !x.failure.Any()));
            && after.ledger == AfterCatch(w.ledger, redact, job, error, x)
            && At(after, t, if job.WillRetry() then Reporting(false) else Hooking)
  {
  }

  /** The steps after the handler: how the attempt fails or completes. */
  function Ending(redact: string -> string, t: nat, job: Fetched, x: Script): seq<Step> {
    var fail := (error: string) => WriteFailure(t, redact(error), x.now, !x.failure.Any());
    if x.handler.Some? then [fail(x.handler.value)]
    else if x.completed.Any() then [WriteCompleted(t, x.now, false, x.ledgerError), fail(x.ledgerError)]
    else [WriteCompleted(t, x.now, true, x.ledgerError)]
  }

  lemma StepsAre(s: Store, redact: string -> string, t: nat, job: Fetched, x: Script)
    requires job.id in s.rows && !x.active.Any()
    ensures AttemptSteps(s, redact, t, job, x)
         == [WriteActive(t, x.now, true, x.ledgerError), HandlerEnds(t, x.handler)] + Ending(redact, t, job, x)
  {
  }

  lemma EndsByThrow(w: World, redact: string -> string, t: nat, job: Fetched, x: Script)
    requires t in w.attempts && w.attempts[t] == Attempt(job, Claiming)
    requires job.id in w.ledger.rows && !x.active.Any() && x.handler.Some?
    ensures var ran, steps := Ran(w, t, job, x), Ending(redact, t, job, x);
            LegalFrom(ran, steps) && IsHandledBy(w, redact, t, job, x, RunFrom(ran, steps))
  {
    var ran := Ran(w, t, job, x);
    AfterRan(w, t, job, x);
    FailureIsTheCatch(ran, redact, t, job, x.handler.value, x);
    RunOne(ran, WriteFailure(t, redact(x.handler.value), x.now, !x.failure.Any()));
  }

  lemma EndsByCompletion(w: World, redact: string -> string, t: nat, job: Fetched, x: Script)
    requires t in w.attempts && w.attempts[t] == Attempt(job, Claiming)
    requires job.id in w.ledger.rows && !x.active.Any() && x.handler.None? && !x.completed.Any()
    ensures var ran, steps := Ran(w, t, job, x), Ending(redact, t, job, x);
            LegalFrom(ran, steps) && IsHandledBy(w, redact, t, job, x, RunFrom(ran, steps))
  {
    AfterRan(w, t, job, x);
    RunOne(Ran(w, t, job, x), WriteCompleted(t, x.now, true, x.ledgerError));
  }

  lemma EndsByLostCompletion(w: World, redact: string -> string, t: nat, job: Fetched, x: Script)
    requires t in w.attempts && w.attempts[t] == Attempt(job, Claiming)
    requires job.id in w.ledger.rows && !x.active.Any() && x.handler.None? && x.completed.Any()
    ensures var ran, steps := Ran(w, t, job, x), Ending(redact, t, job, x);
            LegalFrom(ran, steps) && IsHandledBy(w, redact, t, job, x, RunFrom(ran, steps))
  {
    var ran := Ran(w, t, job, x);
    AfterRan(w, t, job, x);
    var lost := WriteCompleted(t, x.now, false, x.ledgerError);
    var failing := Next(ran, lost);
    assert failing.ledger == ran.ledger && At(failing, t, Failing(x.ledgerError));
    FailureIsTheCatch(failing, redact, t, job, x.ledgerError, x);
    RunTwo(ran, lost, WriteFailure(t, redact(x.ledgerError), x.now, !x.failure.Any()));
  }

  /** The batch handler's treatment of one job is a legal run of the steps above: it leaves the same
      ledger and stops before the hook or the report. Steps of others may come between its own. */
  lemma HandlingIsARun(w: World, redact: string -> string, t: nat, job: Fetched, x: Script)
    requires t in w.attempts && w.attempts[t] == Attempt(job, Claiming)
    ensures var steps := AttemptSteps(w.ledger, redact, t, job, x);
            LegalFrom(w, steps) && IsHandledBy(w, redact, t, job, x, RunFrom(w, steps))
  {
    if job.id !in w.ledger.rows || x.active.Any() {
      ClaimFails(w, redact, t, job, x);
    } else {
      var front := [WriteActive(t, x.now, true, x.ledgerError), HandlerEnds(t, x.handler)];
      if x.handler.Some? {
        EndsByThrow(w, redact, t, job, x);
      } else if x.completed.Any() {
        EndsByLostCompletion(w, redact, t, job, x);
      } else {
        EndsByCompletion(w, redact, t, job, x);
      }
      StepsAre(w.ledger, redact, t, job, x);
      RunsTheHandler(w, t, job, x);
      RunAppend(w, front, Ending(redact, t, job, x));
    }
  }

  lemma RunTwo(w: World, a: Step, b: Step)
    requires Enabled(w, a) && Enabled(Next(w, a), b)
    ensures LegalFrom(w, [a, b]) && RunFrom(w, [a, b]) == Next(Next(w, a), b)
  {
    assert [a, b][1..] == [b] && [b][1..] == [];
    var one := Next(w, a);
    assert LegalFrom(Next(one, b), []) && LegalFrom(one, [b]);
    assert RunFrom(one, [b]) == RunFrom(Next(one, b), []);
  }

  lemma RunOne(w: World, a: Step)
    requires Enabled(w, a)
    ensures LegalFrom(w, [a]) && RunFrom(w, [a]) == Next(w, a)
  {
    assert [a][1..] == [] && LegalFrom(Next(w, a), []);
  }

  lemma {:induction false} RunAppend(w: World, xs: seq<Step>, ys: seq<Step>)
    requires LegalFrom(w, xs) && LegalFrom(RunFrom(w, xs), ys)
    ensures LegalFrom(w, xs + ys) && RunFrom(w, xs + ys) == RunFrom(RunFrom(w, xs), ys)
    decreases |xs|
  {
    if xs == [] {
      assert xs + ys == ys;
    } else {
      assert (xs + ys)[0] == xs[0] && (xs + ys)[1..] == xs[1..] + ys;
      RunAppend(Next(w, xs[0]), xs[1..], ys);
    }
  }

  /** The first two steps, when the row could be claimed. */
  lemma RunsTheHandler(w: World, t: nat, job: Fetched, x: Script)
    requires t in w.attempts && w.attempts[t] == Attempt(job, Claiming) && job.id in w.ledger.rows
    ensures var steps := [WriteActive(t, x.now, true, x.ledgerError), HandlerEnds(t, x.handler)];
            LegalFrom(w, steps) && RunFrom(w, steps) == Ran(w, t, job, x)
  {
    RunTwo(w, WriteActive(t, x.now, true, x.ledgerError), HandlerEnds(t, x.handler));
  }

  // ---------------------------------------------------------------- enqueue as a run

  /** The steps of one call of `enqueue` whose insert commits. */
  function EnqueueSteps(redact: string -> string, id: JobId, jobType: string, retryLimit: nat, now: int,
                        send: SendOutcome, message: string, failFaults: Faults): seq<Step>
  {
    [InsertRow(id, jobType, retryLimit, now), Send(id, send)]
    + if send.Sent? then [] else [RecordSendFailure(id, redact(message), now, !failFaults.Any())]
  }

  /** What `enqueue` does is a legal run of the steps above, the row's commit before the send, and it
      leaves the same ledger and driver. Steps of others may come between its own. */
  lemma EnqueueIsARun(w: World, redact: string -> string, id: JobId, jobType: string, retryLimit: nat, now: int,
                      send: SendOutcome, message: string, failFaults: Faults)
    requires RowsComeFirst(w) && id !in w.ledger.rows
    ensures var steps := EnqueueSteps(redact, id, jobType, retryLimit, now, send, message, failFaults);
            && LegalFrom(w, steps)
            && RunFrom(w, steps).ledger
               == AfterEnqueue(w.ledger, redact, id, jobType, now, Faults(false, false, false), send, message, failFaults)
            && RunFrom(w, steps).driver == (if send.Published() then w.driver[id := DriverJob(Created, 0, retryLimit)] else w.driver)
            && id !in RunFrom(w, steps).pending
  {
    var a, b := InsertRow(id, jobType, retryLimit, now), Send(id, send);
    var c := RecordSendFailure(id, redact(message), now, !failFaults.Any());
    var two := Next(Next(w, a), b);
    RunTwo(w, a, b);
    if send.Sent? {
      assert [a, b] + [] == [a, b];
    } else {
      RunOne(two, c);
      RunAppend(w, [a, b], [c]);
    }
  }
}
