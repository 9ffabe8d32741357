/** The jobs ledger and its outbox (packages/jobs/src/ledger.ts, packages/db/src/internal/jobs.ts). */
module Ledger {
  import opened Common

  type JobId = string

  datatype Status = Queued | Active | Completed | Failed

  datatype Row = Row(
    jobType: string, status: Status, attempts: int, lastError: Option<string>,
    startedAt: Option<int>, finishedAt: Option<int>, updatedAt: int)

  /** A `job.updated` outbox event. */
  datatype Event = JobUpdated(
    id: JobId, jobType: string, status: Status, attempts: int, error: Option<string>, updatedAt: int)

  datatype Store = Store(rows: map<JobId, Row>, events: seq<Event>)

  /** The columns a transition writes; `None` leaves a column as it is. */
  datatype Patch = Patch(
    status: Status, attempts: Option<int>, error: Option<string>,
    startedAt: Option<int>, finishedAt: Option<Option<int>>, updatedAt: int)

  function Patched(row: Row, p: Patch): Row {
    Row(row.jobType, p.status, p.attempts.GetOr(row.attempts),
        if p.error.Some? then p.error else row.lastError,
        if p.startedAt.Some? then p.startedAt else row.startedAt,
        p.finishedAt.GetOr(row.finishedAt), p.updatedAt)
  }

  function EventOf(id: JobId, row: Row, error: Option<string>): Event {
    JobUpdated(id, row.jobType, row.status, row.attempts, error, row.updatedAt)
  }

  // ---------------------------------------------------------------- what one transition does

  function NewRow(jobType: string, now: int): Row {
    Row(jobType, Queued, 0, None, None, None, now)
  }

  /** One transition: the row and its event. */
  function Written(s: Store, id: JobId, row: Row, error: Option<string>): Store {
    Store(s.rows[id := row], s.events + [EventOf(id, row, error)])
  }

  function ActivePatch(attempts: Option<int>, now: int): Patch {
    Patch(Active, attempts, None, Some(now), Some(None), now)
  }

  function CompletedPatch(now: int): Patch {
    Patch(Completed, None, None, None, Some(Some(now)), now)
  }

  function RetryingPatch(error: string, attempts: int, now: int): Patch {
    Patch(Queued, Some(attempts), Some(error), None, None, now)
  }

  function FailedPatch(error: string, now: int): Patch {
    Patch(Failed, None, Some(error), None, Some(Some(now)), now)
  }

  /** What the database refuses during one transaction. */
  datatype Faults = Faults(write: bool, event: bool, commit: bool) {
    predicate Any() {
      write || event || commit
    }
  }

  /** The boot sweep's two horizons for a group of job types. */
  datatype Group = Group(types: set<string>, queuedBefore: int, activeBefore: int)

  predicate Stale(row: Row, g: Group) {
    && row.jobType in g.types
    && ((row.status.Queued? && row.updatedAt < g.queuedBefore) || (row.status.Active? && row.updatedAt < g.activeBefore))
  }

  /** Stands for the fixed text the sweep leaves in the row. */
  const RECONCILED_MESSAGE := "This job was interrupted"

  /** A row that the locked read of a group returned. */
  datatype Candidate = Candidate(id: JobId, group: Group)

  function Swept(row: Row, now: int): Row {
    Patched(row, FailedPatch(RECONCILED_MESSAGE, now))
  }

  /** The store after the first `n` candidates of a sweep. */
  function SweptRows(s: Store, candidates: seq<Candidate>, now: int, n: nat): Store
    requires n <= |candidates|
  {
    if n == 0 then s
    else
      var before, c := SweptRows(s, candidates, now, n - 1), candidates[n - 1];
      if c.id in before.rows && Stale(before.rows[c.id], c.group)
      then Written(before, c.id, Swept(before.rows[c.id], now), Some(RECONCILED_MESSAGE))
      else before
  }

  class JobLedger {
    var store: Store
    const redact: string -> string

    constructor (redact: string -> string)
      ensures store == Store(map[], []) && this.redact == redact
    {
      this.redact := redact;
      store := Store(map[], []);
    }

    /** One transaction: the row, then the event, on a working copy that replaces the store only when
        the commit succeeds. `row` is the value the write returns. */
    method Commit(id: JobId, row: Row, error: Option<string>, faults: Faults) returns (ok: bool)
      modifies this
      ensures ok == !faults.Any()
      ensures store == if ok then Written(old(store), id, row, error) else old(store)
    {
      if faults.write {
        return false;
      }
      var working := store.(rows := store.rows[id := row]);
      if faults.event {
        return false;
      }
      working := working.(events := working.events + [EventOf(id, row, error)]);
      if faults.commit {
        return false;
      }
      store := working;
      ok := true;
    }

    /** The primary key refuses an id that is already there. */
    method RecordQueued(id: JobId, jobType: string, now: int, faults: Faults) returns (ok: bool)
      modifies this
      ensures ok == (id !in old(store).rows && !faults.Any())
      ensures store == if ok then Written(old(store), id, NewRow(jobType, now), None) else old(store)
    {
      if id in store.rows {
        return false;
      }
      ok := Commit(id, NewRow(jobType, now), None, faults);
    }

    method Transition(id: JobId, p: Patch, error: Option<string>, faults: Faults) returns (ok: bool)
      modifies this
      ensures ok == (id in old(store).rows && !faults.Any())
      ensures store == if ok then Written(old(store), id, Patched(old(store).rows[id], p), error) else old(store)
    {
      if id !in store.rows {
        return false;
      }
      ok := Commit(id, Patched(store.rows[id], p), error, faults);
    }

    method RecordActive(id: JobId, attempts: Option<int>, now: int, faults: Faults) returns (ok: bool)
      modifies this
      ensures ok == (id in old(store).rows && !faults.Any())
      ensures store == if ok then Written(old(store), id, Patched(old(store).rows[id], ActivePatch(attempts, now)), None)
                       else old(store)
    {
      ok := Transition(id, ActivePatch(attempts, now), None, faults);
    }

    method RecordCompleted(id: JobId, now: int, faults: Faults) returns (ok: bool)
      modifies this
      ensures ok == (id in old(store).rows && !faults.Any())
      ensures store == if ok then Written(old(store), id, Patched(old(store).rows[id], CompletedPatch(now)), None)
                       else old(store)
    {
      ok := Transition(id, CompletedPatch(now), None, faults);
    }

    /** The message is redacted once, and the row and the event carry the same redacted text. */
    method RecordRetrying(id: JobId, message: string, attempts: int, now: int, faults: Faults) returns (ok: bool)
      modifies this
      ensures ok == (id in old(store).rows && !faults.Any())
      ensures store == if ok then Written(old(store), id, Patched(old(store).rows[id], RetryingPatch(redact(message), attempts, now)),
                                          Some(redact(message)))
                       else old(store)
    {
      var redacted := redact(message);
      ok := Transition(id, RetryingPatch(redacted, attempts, now), Some(redacted), faults);
    }

    method RecordFailed(id: JobId, message: string, now: int, faults: Faults) returns (ok: bool)
      modifies this
      ensures ok == (id in old(store).rows && !faults.Any())
      ensures store == if ok then Written(old(store), id, Patched(old(store).rows[id], FailedPatch(redact(message), now)),
                                          Some(redact(message)))
                       else old(store)
    {
      var redacted := redact(message);
      ok := Transition(id, FailedPatch(redacted, now), Some(redacted), faults);
    }

    /** The boot sweep, all in one transaction. `candidates` is what the locked reads returned, group
        by group and in whatever order; each row is written only if it is still stale. */
    method Reconcile(candidates: seq<Candidate>, now: int, fault: bool) returns (ok: bool)
      modifies this
      ensures ok == !fault
      ensures store == if ok then SweptRows(old(store), candidates, now, |candidates|) else old(store)
    {
      var working := store;
      for i := 0 to |candidates|
        invariant working == SweptRows(store, candidates, now, i) && store == old(store)
      {
        var id := candidates[i].id;
        if id in working.rows && Stale(working.rows[id], candidates[i].group) {
          var row := Swept(working.rows[id], now);
          working := Store(working.rows[id := row], working.events + [EventOf(id, row, Some(RECONCILED_MESSAGE))]);
        }
      }
      if !fault {
        store := working;
      }
      ok := !fault;
    }
  }

  // ---------------------------------------------------------------- replaying the outbox

  /** The columns an event stream can rebuild: the error column is the last error sent. */
  datatype Summary = Summary(jobType: string, status: Status, attempts: int, lastError: Option<string>, updatedAt: int)

  function SummaryOf(row: Row): Summary {
    Summary(row.jobType, row.status, row.attempts, row.lastError, row.updatedAt)
  }

  function Replay(events: seq<Event>): map<JobId, Summary> {
    if events == [] then map[]
    else
      var before, e := Replay(events[..|events| - 1]), events[|events| - 1];
      before[e.id := Summary(e.jobType, e.status, e.attempts,
                             if e.error.Some? then e.error
                             else if e.id in before then before[e.id].lastError else None,
                             e.updatedAt)]
  }

  /** The outbox rebuilds the table. */
  predicate Mirrored(s: Store) {
    && Replay(s.events).Keys == s.rows.Keys
    && forall id :: id in s.rows ==> Replay(s.events)[id] == SummaryOf(s.rows[id])
  }

  lemma WrittenStaysMirrored(s: Store, id: JobId, row: Row, error: Option<string>)
    requires Mirrored(s)
    requires row.lastError == if error.Some? then error else if id in s.rows then s.rows[id].lastError else None
    ensures Mirrored(Written(s, id, row, error))
  {
    var after := Written(s, id, row, error);
    assert after.events[..|after.events| - 1] == s.events;
    assert after.events[|after.events| - 1] == EventOf(id, row, error);
  }

  lemma {:induction false} SweepStaysMirrored(s: Store, candidates: seq<Candidate>, now: int, n: nat)
    requires n <= |candidates| && Mirrored(s)
    ensures Mirrored(SweptRows(s, candidates, now, n))
  {
    if n > 0 {
      SweepStaysMirrored(s, candidates, now, n - 1);
      var before, c := SweptRows(s, candidates, now, n - 1), candidates[n - 1];
      if c.id in before.rows && Stale(before.rows[c.id], c.group) {
        WrittenStaysMirrored(before, c.id, Swept(before.rows[c.id], now), Some(RECONCILED_MESSAGE));
      }
    }
  }

  /** Some candidate among the first `n` names this row and its group's horizons make it stale. */
  predicate StaleCandidate(s: Store, candidates: seq<Candidate>, n: nat, id: JobId)
    requires n <= |candidates| && id in s.rows
  {
    exists i :: 0 <= i < n && candidates[i].id == id && Stale(s.rows[id], candidates[i].group)
  }

  lemma {:induction false} SweepTouchesOnlyStaleRows(s: Store, candidates: seq<Candidate>, now: int, n: nat)
    requires n <= |candidates|
    ensures var after := SweptRows(s, candidates, now, n);
            && after.rows.Keys == s.rows.Keys && s.events <= after.events
            && forall id :: id in s.rows
                 ==> after.rows[id] == if StaleCandidate(s, candidates, n, id) then Swept(s.rows[id], now) else s.rows[id]
  {
    if n > 0 {
      SweepTouchesOnlyStaleRows(s, candidates, now, n - 1);
      var before, after, c := SweptRows(s, candidates, now, n - 1), SweptRows(s, candidates, now, n), candidates[n - 1];
      forall id | id in s.rows
        ensures after.rows[id] == if StaleCandidate(s, candidates, n, id) then Swept(s.rows[id], now) else s.rows[id]
      {
        assert StaleCandidate(s, candidates, n, id)
          <==> StaleCandidate(s, candidates, n - 1, id) || (c.id == id && Stale(s.rows[id], c.group));
      }
    }
  }

  /** The sweep fails exactly the rows that a group it was given names by type and holds for too long
      without a write: queued since before one horizon, or active since before the other. It leaves
      their attempts and start times, and leaves every other row alone. */
  lemma SweepFailsIff(s: Store, candidates: seq<Candidate>, now: int, id: JobId)
    requires id in s.rows
    ensures var row, after := s.rows[id], SweptRows(s, candidates, now, |candidates|);
            id in after.rows
            && after.rows[id] ==
               if exists i :: && 0 <= i < |candidates| && candidates[i].id == id && row.jobType in candidates[i].group.types
                              && ((row.status == Queued && row.updatedAt < candidates[i].group.queuedBefore)
                                  || (row.status == Active && row.updatedAt < candidates[i].group.activeBefore))
               then Row(row.jobType, Failed, row.attempts, Some(RECONCILED_MESSAGE), row.startedAt, Some(now), now)
               else row
  {
    SweepTouchesOnlyStaleRows(s, candidates, now, |candidates|);
  }

  // ---------------------------------------------------------------- whole runs

  /** Any call on the ledger, whoever makes it. A call whose transaction does not commit is a call
      that changes nothing, so it needs no operation of its own. */
  datatype Op =
    | OpQueued(id: JobId, jobType: string, now: int)
    | OpActive(id: JobId, attempts: Option<int>, now: int)
    | OpCompleted(id: JobId, now: int)
    | OpRetrying(id: JobId, redacted: string, attempt: int, now: int)
    | OpFailed(id: JobId, redacted: string, now: int)
    | OpSweep(candidates: seq<Candidate>, now: int)

  function Transitioned(s: Store, id: JobId, p: Patch, error: Option<string>): Store {
    if id in s.rows then Written(s, id, Patched(s.rows[id], p), error) else s
  }

  function Apply(s: Store, op: Op): Store {
    match op
    case OpQueued(id, jobType, now) => if id in s.rows then s else Written(s, id, NewRow(jobType, now), None)
    case OpActive(id, attempts, now) => Transitioned(s, id, ActivePatch(attempts, now), None)
    case OpCompleted(id, now) => Transitioned(s, id, CompletedPatch(now), None)
    case OpRetrying(id, text, attempts, now) => Transitioned(s, id, RetryingPatch(text, attempts, now), Some(text))
    case OpFailed(id, text, now) => Transitioned(s, id, FailedPatch(text, now), Some(text))
    case OpSweep(candidates, now) => SweptRows(s, candidates, now, |candidates|)
  }

  /** The row that each transition leaves of one it finds, column by column, and its one event. */
  lemma TransitionsLeave(s: Store, id: JobId, attempts: Option<int>, text: string, attempt: int, now: int)
    requires id in s.rows
    ensures var r := s.rows[id];
            && Apply(s, OpActive(id, attempts, now))
               == Written(s, id, Row(r.jobType, Active, attempts.GetOr(r.attempts), r.lastError, Some(now), None, now), None)
            && Apply(s, OpCompleted(id, now))
               == Written(s, id, Row(r.jobType, Completed, r.attempts, r.lastError, r.startedAt, Some(now), now), None)
            && Apply(s, OpRetrying(id, text, attempt, now))
               == Written(s, id, Row(r.jobType, Queued, attempt, Some(text), r.startedAt, r.finishedAt, now), Some(text))
            && Apply(s, OpFailed(id, text, now))
               == Written(s, id, Row(r.jobType, Failed, r.attempts, Some(text), r.startedAt, Some(now), now), Some(text))
    ensures forall row, error ::
              && Written(s, id, row, error).rows == s.rows[id := row]
              && Written(s, id, row, error).events
                 == s.events + [JobUpdated(id, row.jobType, row.status, row.attempts, error, row.updatedAt)]
  {
  }

  function Run(ops: seq<Op>): Store {
    if ops == [] then Store(map[], []) else Apply(Run(ops[..|ops| - 1]), ops[|ops| - 1])
  }

  /** After any calls at all, replaying the outbox gives back every row's type, status, attempts, last
      error and update time. */
  lemma {:induction false} ReplayRebuildsLedger(ops: seq<Op>)
    ensures Mirrored(Run(ops))
  {
    if ops != [] {
      var s, op := Run(ops[..|ops| - 1]), ops[|ops| - 1];
      ReplayRebuildsLedger(ops[..|ops| - 1]);
      match op
      case OpQueued(id, jobType, now) =>
        if id !in s.rows {
          WrittenStaysMirrored(s, id, NewRow(jobType, now), None);
        }
      case OpActive(id, attempts, now) => TransitionStaysMirrored(s, id, ActivePatch(attempts, now), None);
      case OpCompleted(id, now) => TransitionStaysMirrored(s, id, CompletedPatch(now), None);
      case OpRetrying(id, text, attempts, now) =>
        TransitionStaysMirrored(s, id, RetryingPatch(text, attempts, now), Some(text));
      case OpFailed(id, text, now) => TransitionStaysMirrored(s, id, FailedPatch(text, now), Some(text));
      case OpSweep(candidates, now) => SweepStaysMirrored(s, candidates, now, |candidates|);
    }
  }

  lemma TransitionStaysMirrored(s: Store, id: JobId, p: Patch, error: Option<string>)
    requires Mirrored(s) && p.error == error
    ensures Mirrored(Transitioned(s, id, p, error))
  {
    if id in s.rows {
      WrittenStaysMirrored(s, id, Patched(s.rows[id], p), error);
    }
  }

  // ---------------------------------------------------------------- finish times

  predicate Terminal(s: Status) {
    s.Completed? || s.Failed?
  }

  /** A row has a finish time exactly when its status is terminal. */
  predicate FinishTimesAgree(s: Store) {
    forall id :: id in s.rows ==> (s.rows[id].finishedAt.Some? <==> Terminal(s.rows[id].status))
  }

  /** Every call keeps finish times and statuses in agreement, except a retry recorded on a row that
      is still finished: the queued row then keeps the old finish time. */
  lemma FinishTimesAgreeIff(s: Store, op: Op)
    requires FinishTimesAgree(s)
    ensures FinishTimesAgree(Apply(s, op))
       <==> !(op.OpRetrying? && op.id in s.rows && s.rows[op.id].finishedAt.Some?)
  {
    match op
    case OpSweep(candidates, now) => SweepTouchesOnlyStaleRows(s, candidates, now, |candidates|);
    case OpRetrying(id, text, attempts, now) =>
      if id in s.rows {
        assert Apply(s, op).rows[id].finishedAt == s.rows[id].finishedAt;
      }
    case _ =>
  }

  /** Such a run: the sweep fails a row, the driver delivers the job after all, the write of 'active'
      is lost and the attempt throws. */
  lemma RetryOnSweptRowKeepsFinishTime()
    ensures var s := Run([OpQueued("j", "scan", 1),
                          OpSweep([Candidate("j", Group({"scan"}, 5, 5))], 6),
                          OpRetrying("j", "boom", 1, 7)]);
            "j" in s.rows && s.rows["j"].status.Queued? && s.rows["j"].finishedAt == Some(6)
  {
    var a, c := OpQueued("j", "scan", 1), OpRetrying("j", "boom", 1, 7);
    var b := OpSweep([Candidate("j", Group({"scan"}, 5, 5))], 6);
    assert [a][..0] == [] && [a, b][..1] == [a] && [a, b, c][..2] == [a, b];
    assert Run([a]).rows == map["j" := NewRow("scan", 1)];
    SweepTouchesOnlyStaleRows(Run([a]), b.candidates, 6, 1);
    assert StaleCandidate(Run([a]), b.candidates, 1, "j");
    assert Run([a, b]).rows["j"] == Swept(NewRow("scan", 1), 6);
  }
}
