/** The supervised server process (packages/provisioning-pg/src/supervisor.ts): starting it, stopping it
    and noticing that it has crashed. Each method is cut at its awaits; the exit event of any process
    the supervisor ever spawned, and the end of a crash diagnosis, can fall between any two cuts. One
    operation is awaited before the next is called. */
module Supervisor {
  import opened Common

  datatype Status = Absent | Provisioning | Ready | Corrupt

  /** The supervisor's own fields. */
  datatype Fields = Fields(status: Status, child: Option<nat>, expectedExit: bool)

  function Spawned(s: Fields, id: nat): Fields {
    Fields(s.status, Some(id), false)
  }

  /** The exit listener, which is the same for every process spawned. */
  function AfterExit(s: Fields): Fields {
    if s.expectedExit then s else s.(child := None)
  }

  function Diagnosed(s: Fields): Fields {
    s.(status := Corrupt)
  }

  function Killing(s: Fields): Fields {
    s.(expectedExit := true)
  }

  function StartGivenUp(s: Fields): Fields {
    s.(status := Corrupt, child := None)
  }

  function Serving(s: Fields): Fields {
    s.(status := Ready)
  }

  function NothingToStop(s: Fields): Fields {
    s.(child := None, status := if s.status.Ready? || s.status.Corrupt? then Provisioning else s.status)
  }

  function Stopped(s: Fields): Fields {
    s.(child := None, status := Provisioning)
  }

  class EmbeddedServer {
    var status: Status
    var child: Option<nat>
    var expectedExit: bool

    ghost function State(): Fields
      reads this
    {
      Fields(status, child, expectedExit)
    }

    constructor ()
      ensures State() == Fields(Absent, None, false)
    {
      status, child, expectedExit := Absent, None, false;
    }

    method BeginStart(id: nat)
      requires status != Absent
      modifies this
      ensures State() == Spawned(old(State()), id) == Fields(old(status), Some(id), false)
    {
      child := Some(id);
      expectedExit := false;
    }

    /** `crashed` says that a diagnosis is begun. */
    method OnExit() returns (crashed: bool)
      modifies this
      ensures State() == AfterExit(old(State())) && crashed == !old(expectedExit)
      ensures State() == Fields(old(status), if crashed then None else old(child), old(expectedExit))
    {
      crashed := !expectedExit;
      if crashed {
        child := None;
      }
    }

    method FinishDiagnosis()
      modifies this
      ensures State() == Diagnosed(old(State())) == Fields(Corrupt, old(child), old(expectedExit))
    {
      status := Corrupt;
    }

    method OnPollFailed(exitedByCode: bool) returns (kill: bool)
      modifies this
      ensures kill == !exitedByCode && State() == if kill then Killing(old(State())) else old(State())
      ensures State() == Fields(old(status), old(child), kill || old(expectedExit))
    {
      kill := !exitedByCode;
      if kill {
        expectedExit := true;
      }
    }

    method GiveUpStart()
      modifies this
      ensures State() == StartGivenUp(old(State())) == Fields(Corrupt, None, old(expectedExit))
    {
      status := Corrupt;
      child := None;
    }

    method OnServing()
      modifies this
      ensures State() == Serving(old(State())) == Fields(Ready, old(child), old(expectedExit))
    {
      status := Ready;
    }

    /** `childExited` says that the tracked process, if any, has an exit code. */
    method BeginStop(childExited: bool) returns (kill: bool)
      modifies this
      ensures kill == (old(child).Some? && !childExited)
      ensures State() == if kill then Killing(old(State())) else NothingToStop(old(State()))
      ensures kill ==> State() == Fields(old(status), old(child), true)
      ensures !kill ==> State() == Fields(if old(status) == Absent then Absent else Provisioning, None, old(expectedExit))
    {
      kill := child.Some? && !childExited;
      if kill {
        expectedExit := true;
      } else {
        child := None;
        if status == Ready || status == Corrupt {
          status := Provisioning;
        }
      }
    }

    method FinishStop()
      modifies this
      ensures State() == Stopped(old(State())) == Fields(Provisioning, None, old(expectedExit))
    {
      child := None;
      status := Provisioning;
    }
  }

  // ---------------------------------------------------------------- runs

  /** The operation in progress, and the process it is about. */
  datatype Op = Idle | Polling(id: nat) | EnsuringDatabase(id: nat) | Quitting(id: nat) | Diagnosing | Stopping(id: nat)

  /** `coded` holds the processes that ended with an exit code, rather than by a signal; `crashes`
      counts the diagnoses begun by the exit listener that have not finished. */
  datatype World = World(s: Fields, op: Op, running: set<nat>, coded: set<nat>, spawned: nat, crashes: nat)

  datatype Step =
    | Provision(healthy: bool)
    | BeginStart
    | PollOk
    | PollFail
    | QuitSeen
    | QuitTimedOut
    | StartFails
    | DatabaseOk
    | DatabaseFails
    | BeginStop
    | StopSeen
    | StopTimedOut
    | Exit(id: nat, byCode: bool)
    | CrashDiagnosed

  predicate Enabled(w: World, a: Step) {
    match a
    case Provision(_) => w.op.Idle?
    case BeginStart => w.op.Idle? && w.s.status != Absent
    case PollOk => w.op.Polling?
    case PollFail => w.op.Polling?
    case QuitSeen => w.op.Quitting? && w.op.id !in w.running
    case QuitTimedOut => w.op.Quitting? && w.op.id in w.running
    case StartFails => w.op.Diagnosing?
    case DatabaseOk => w.op.EnsuringDatabase?
    case DatabaseFails => w.op.EnsuringDatabase?
    case BeginStop => w.op.Idle?
    case StopSeen => w.op.Stopping? && w.op.id !in w.running
    case StopTimedOut => w.op.Stopping? && w.op.id in w.running
    case Exit(id, _) => id in w.running
    case CrashDiagnosed => w.crashes > 0
  }

  predicate MustKill(w: World) {
    w.s.child.Some? && w.s.child.value !in w.coded
  }

  function Next(w: World, a: Step): World
    requires Enabled(w, a)
  {
    match a
    case Provision(healthy) => w.(s := w.s.(status := if healthy then Provisioning else Corrupt))
    case BeginStart =>
      w.(s := Spawned(w.s, w.spawned), op := Polling(w.spawned), running := w.running + {w.spawned}, spawned := w.spawned + 1)
    case PollOk => w.(op := EnsuringDatabase(w.op.id))
    case PollFail => if w.op.id in w.coded then w.(op := Diagnosing) else w.(s := Killing(w.s), op := Quitting(w.op.id))
    case QuitSeen => w.(op := Diagnosing)
    case QuitTimedOut => w.(op := Diagnosing)
    case StartFails => w.(s := StartGivenUp(w.s), op := Idle)
    case DatabaseOk => w.(s := Serving(w.s), op := Idle)
    case DatabaseFails => w.(op := Idle)
    case BeginStop =>
      if MustKill(w) then w.(s := Killing(w.s), op := Stopping(w.s.child.value)) else w.(s := NothingToStop(w.s))
    case StopSeen => w.(s := Stopped(w.s), op := Idle)
    case StopTimedOut => w.(s := Stopped(w.s), op := Idle)
    case Exit(id, byCode) =>
      w.(s := AfterExit(w.s), running := w.running - {id}, coded := if byCode then w.coded + {id} else w.coded,
         crashes := if w.s.expectedExit then w.crashes else w.crashes + 1)
    case CrashDiagnosed => w.(s := Diagnosed(w.s), crashes := w.crashes - 1)
  }

  predicate Legal(w: World, run: seq<Step>)
    decreases |run|
  {
    run == [] || (Enabled(w, run[0]) && Legal(Next(w, run[0]), run[1..]))
  }

  function After(w: World, run: seq<Step>): World
    requires Legal(w, run)
    decreases |run|
  {
    if run == [] then w else After(Next(w, run[0]), run[1..])
  }

  const START: World := World(Fields(Absent, None, false), Idle, {}, {}, 0, 0)

  /** Every operation goes on to its end: a poll is answered or not, a kill is seen or times out, and
      never both; a start that is not answered is killed first unless its process ended with a code, and
      a stop kills exactly a tracked process that did not. */
  lemma OperationsGoOn(w: World)
    ensures w.op.Polling? ==> && Enabled(w, PollOk) && Next(w, PollOk).op == EnsuringDatabase(w.op.id)
                              && Enabled(w, PollFail)
                              && Next(w, PollFail).op == (if w.op.id in w.coded then Diagnosing else Quitting(w.op.id))
    ensures w.op.EnsuringDatabase? ==> && Enabled(w, DatabaseOk) && Next(w, DatabaseOk).op == Idle
                                       && Enabled(w, DatabaseFails) && Next(w, DatabaseFails) == w.(op := Idle)
    ensures w.op.Quitting? ==> if w.op.id in w.running then Enabled(w, QuitTimedOut) && !Enabled(w, QuitSeen)
                                                            && Next(w, QuitTimedOut).op == Diagnosing
                               else Enabled(w, QuitSeen) && !Enabled(w, QuitTimedOut) && Next(w, QuitSeen).op == Diagnosing
    ensures w.op.Diagnosing? ==> Enabled(w, StartFails) && Next(w, StartFails).op == Idle
    ensures w.op.Stopping? ==> if w.op.id in w.running then Enabled(w, StopTimedOut) && !Enabled(w, StopSeen)
                                                            && Next(w, StopTimedOut).op == Idle
                               else Enabled(w, StopSeen) && !Enabled(w, StopTimedOut) && Next(w, StopSeen).op == Idle
    ensures w.op.Idle? ==> Enabled(w, BeginStop)
                           && Next(w, BeginStop).op == (if w.s.child.Some? && w.s.child.value !in w.coded
                                                        then Stopping(w.s.child.value) else Idle)
  {
  }

  /** An exit is recorded as it was: of that process alone, with a code or by a signal; and a diagnosis
      begins exactly when no exit was expected. */
  lemma ExitsAreRecorded(w: World, id: nat, byCode: bool)
    requires id in w.running
    ensures Enabled(w, Exit(id, byCode))
    ensures var after := Next(w, Exit(id, byCode));
            && after.running == w.running - {id} && after.op == w.op
            && after.coded == (if byCode then w.coded + {id} else w.coded)
            && after.crashes == (if w.s.expectedExit then w.crashes else w.crashes + 1)
            && after.s == Fields(w.s.status, if w.s.expectedExit then w.s.child else None, w.s.expectedExit)
  {
  }

  predicate TrackedRuns(w: World) {
    w.s.child.Some? && w.s.child.value in w.running
  }

  /** The steps that let go of a process that is still running: starting again without a stop, and
      giving up on a process that outlives its kill. */
  predicate LetsGo(w: World, a: Step) {
    TrackedRuns(w) && (a.BeginStart? || a.StartFails? || a.StopTimedOut?)
  }

  predicate Careful(w: World, run: seq<Step>)
    requires Legal(w, run)
    decreases |run|
  {
    run == [] || (!LetsGo(w, run[0]) && Careful(Next(w, run[0]), run[1..]))
  }

  // ---------------------------------------------------------------- no process is lost

  /** Nothing the supervisor spawned runs but the process it tracks. */
  ghost predicate NothingLost(w: World) {
    forall id :: id in w.running ==> w.s.child == Some(id)
  }

  ghost predicate Sound(w: World) {
    && (forall id :: id in w.running ==> id < w.spawned && id !in w.coded)
    && (forall id :: id in w.coded ==> id < w.spawned)
    && (w.s.child.Some? ==> w.s.child.value < w.spawned)
    && (w.op.Polling? || w.op.EnsuringDatabase? ==> !w.s.expectedExit && (w.s.child.Some? ==> w.s.child.value == w.op.id))
    && (w.op.Quitting? ==> w.s.expectedExit && (w.s.child.Some? ==> w.s.child.value == w.op.id))
    && (w.op.Stopping? ==> w.s.expectedExit && w.s.child == Some(w.op.id))
  }

  lemma KeepsSound(w: World, a: Step)
    requires Sound(w) && Enabled(w, a)
    ensures Sound(Next(w, a))
  {
  }

  /** One step keeps every running process tracked exactly when it does not let go of one. */
  lemma LosesIffLetsGo(w: World, a: Step)
    requires Sound(w) && NothingLost(w) && Enabled(w, a)
    ensures NothingLost(Next(w, a)) <==> !LetsGo(w, a)
  {
    if LetsGo(w, a) {
      assert w.s.child.value in Next(w, a).running;
    }
  }

  lemma {:induction false} CarefulRunsLoseNothing(w: World, run: seq<Step>)
    requires Sound(w) && NothingLost(w) && Legal(w, run) && Careful(w, run)
    ensures Sound(After(w, run)) && NothingLost(After(w, run))
    decreases |run|
  {
    if run != [] {
      KeepsSound(w, run[0]);
      LosesIffLetsGo(w, run[0]);
      CarefulRunsLoseNothing(Next(w, run[0]), run[1..]);
    }
  }

  // ---------------------------------------------------------------- what "ready" tells

  /** Whether "ready" was last reported of a process whose crash had been diagnosed by then. */
  ghost predicate ReadyTooLate(w: World, run: seq<Step>, before: bool)
    requires Legal(w, run)
    decreases |run|
  {
    if run == [] then before else ReadyTooLate(Next(w, run[0]), run[1..], TooLate(w, run[0], before))
  }

  predicate TooLate(w: World, a: Step, before: bool) {
    match a
    case DatabaseOk => w.s.child.None? && w.crashes == 0
    case BeginStart => false
    case _ => before
  }

  /** An unexpected exit is always noticed: unless one is expected, the tracked process runs. */
  ghost predicate Noticed(w: World, late: bool) {
    && (!w.s.expectedExit && w.s.child.Some? ==> TrackedRuns(w))
    && (w.s.status.Ready? && (w.op.Idle? || w.op.Polling? || w.op.EnsuringDatabase?) ==>
          && !w.s.expectedExit
          && (w.crashes == 0 ==> if late then w.s.child.None? else TrackedRuns(w)))
  }

  lemma KeepsNoticed(w: World, a: Step, late: bool)
    requires Sound(w) && NothingLost(w) && Enabled(w, a) && Noticed(w, late) && !LetsGo(w, a)
    ensures Noticed(Next(w, a), TooLate(w, a, late))
  {
  }

  lemma {:induction false} RunsNotice(w: World, run: seq<Step>, late: bool)
    requires Sound(w) && NothingLost(w) && Noticed(w, late) && Legal(w, run) && Careful(w, run)
    ensures Noticed(After(w, run), ReadyTooLate(w, run, late))
    decreases |run|
  {
    if run != [] {
      KeepsSound(w, run[0]);
      LosesIffLetsGo(w, run[0]);
      KeepsNoticed(w, run[0], late);
      RunsNotice(Next(w, run[0]), run[1..], TooLate(w, run[0], late));
    }
  }

  /** Between operations, with no diagnosis under way, "ready" means that the tracked server runs,
      exactly unless it was reported after the diagnosis of its crash had finished. */
  lemma ReadyMeansRunningUnlessTooLate(run: seq<Step>)
    requires Legal(START, run) && Careful(START, run)
    ensures var w := After(START, run);
            w.op.Idle? && w.crashes == 0 && w.s.status.Ready? ==> (TrackedRuns(w) <==> !ReadyTooLate(START, run, false))
  {
    RunsNotice(START, run, false);
  }

  /** One more step at the end of a run. */
  lemma {:induction false} Do(w: World, run: seq<Step>, a: Step) returns (longer: seq<Step>)
    requires Legal(w, run) && Enabled(After(w, run), a)
    ensures longer == run + [a] && Legal(w, longer) && After(w, longer) == Next(After(w, run), a)
    decreases |run|
  {
    longer := run + [a];
    if run == [] {
      assert longer[1..] == [];
    } else {
      var rest := Do(Next(w, run[0]), run[1..], a);
      assert longer[0] == run[0] && longer[1..] == rest;
    }
  }

  /** A server that dies between answering the readiness poll and the database check, and whose crash
      is diagnosed before that check returns, is reported ready for good. */
  lemma ReadyWithoutAServer(w: World) returns (run: seq<Step>)
    requires Sound(w) && NothingLost(w) && Enabled(w, BeginStart) && !TrackedRuns(w) && w.crashes == 0
    ensures Legal(w, run)
    ensures var after := After(w, run);
            after.op.Idle? && after.crashes == 0 && after.s.status.Ready? && after.running == {} && after.s.child.None?
  {
    run := Do(w, [], BeginStart);
    run := Do(w, run, PollOk);
    run := Do(w, run, Exit(w.spawned, true));
    run := Do(w, run, CrashDiagnosed);
    run := Do(w, run, DatabaseOk);
  }

  lemma StartIsGivenUp(w: World) returns (run: seq<Step>)
    requires Sound(w) && Enabled(w, BeginStart)
    ensures Legal(w, run)
    ensures var after := After(w, run);
            && Sound(after) && Enabled(after, BeginStart) && after.s.child.None?
            && after.spawned == w.spawned + 1 && w.spawned in after.running
  {
    run := Do(w, [], BeginStart);
    run := Do(w, run, PollFail);
    run := Do(w, run, QuitTimedOut);
    run := Do(w, run, StartFails);
  }

  /** The exit listener does not ask whose exit it hears. When the exit of a process that was given up
      on is heard after the next start, the supervisor lets go of the server it started since, and a
      later stop leaves that one running. */
  lemma LateExitLosesTheServer(w: World) returns (run: seq<Step>)
    requires Sound(w) && Enabled(w, BeginStart)
    ensures Legal(w, run)
    ensures var after := After(w, run);
            after.op.Idle? && after.s.status.Provisioning? && after.s.child.None? && w.spawned + 1 in after.running
  {
    run := StartIsGivenUp(w);
    run := Do(w, run, BeginStart);
    run := Do(w, run, PollOk);
    run := Do(w, run, DatabaseOk);
    run := Do(w, run, Exit(w.spawned, false));
    run := Do(w, run, CrashDiagnosed);
    run := Do(w, run, BeginStop);
  }
}
