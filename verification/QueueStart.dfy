/** Starting the queue (packages/jobs/src/queue.ts): the retry loop over a database that may not be up
    yet, and the memo that lets concurrent callers share one start without keeping its failure. */
module QueueStart {
  import opened Common

  // ---------------------------------------------------------------- the retry loop

  /** The environment: how long each attempt takes, whether it succeeds, and how long the wait behind
      it really is. */
  datatype Attempts = Attempts(takes: nat -> nat, succeeds: nat -> bool, waits: nat -> nat)

  ghost predicate WaitsFor(e: Attempts, interval: nat) {
    forall k :: e.waits(k) >= interval && e.waits(k) > 0
  }

  /** When attempt `k` ends. */
  function EndOf(e: Attempts, begin: nat, k: nat): (t: nat)
    ensures t >= begin + e.takes(k)
  {
    if k == 0 then begin + e.takes(0) else EndOf(e, begin, k - 1) + e.waits(k - 1) + e.takes(k)
  }

  function BeginOf(e: Attempts, begin: nat, k: nat): nat {
    if k == 0 then begin else EndOf(e, begin, k - 1) + e.waits(k - 1)
  }

  /** An attempt that fails here is followed by another. */
  predicate GoesOn(e: Attempts, begin: nat, window: nat, interval: nat, k: nat) {
    !e.succeeds(k) && EndOf(e, begin, k) + interval < begin + window
  }

  /** An attempt lasts as long as it takes and the next begins after the wait behind it: if the attempt
      failed, and ended more than the interval before the window does. */
  lemma TimesAddUp(e: Attempts, begin: nat, window: nat, interval: nat, k: nat)
    ensures BeginOf(e, begin, 0) == begin
    ensures EndOf(e, begin, k) == BeginOf(e, begin, k) + e.takes(k)
    ensures BeginOf(e, begin, k + 1) == EndOf(e, begin, k) + e.waits(k)
    ensures GoesOn(e, begin, window, interval, k)
       <==> !e.succeeds(k) && begin + window - BeginOf(e, begin, k) - e.takes(k) > interval
  {
  }

  /** The database comes up in time: every attempt begun at `up` or later works, and the one under way
      at `up` ends with the interval to spare. */
  ghost predicate UpInTime(e: Attempts, begin: nat, window: nat, interval: nat, up: nat) {
    && (forall k :: BeginOf(e, begin, k) >= up ==> e.succeeds(k))
    && (forall k :: BeginOf(e, begin, k) < up ==> EndOf(e, begin, k) + interval < begin + window)
  }

  /** Starts until it works or the next attempt would come too late. */
  method StartWithRetry(e: Attempts, begin: nat, window: nat, interval: nat) returns (started: bool, last: nat)
    requires WaitsFor(e, interval)
    ensures forall k :: 0 <= k < last ==> GoesOn(e, begin, window, interval, k)
    ensures started == e.succeeds(last)
    ensures !started ==> EndOf(e, begin, last) + interval >= begin + window
    ensures (exists up :: UpInTime(e, begin, window, interval, up)) ==> started
  {
    var now := begin;
    last := 0;
    while true
      invariant now == BeginOf(e, begin, last)
      invariant forall k :: 0 <= k < last ==> GoesOn(e, begin, window, interval, k)
      decreases begin + window - now
    {
      now := now + e.takes(last);
      if e.succeeds(last) {
        return true, last;
      }
      if now + interval >= begin + window {
        return false, last;
      }
      now := now + e.waits(last);
      last := last + 1;
    }
  }

  // ---------------------------------------------------------------- the memo

  datatype Outcome = Running | Started | Failed

  /** The memo names the attempt that callers share; `calls[i]` is the attempt call `i` was given. */
  datatype World = World(memo: Option<nat>, attempts: seq<Outcome>, calls: seq<nat>)

  datatype Step = Call | Ends(id: nat, ok: bool)

  predicate Enabled(w: World, a: Step) {
    a.Call? || (a.id < |w.attempts| && w.attempts[a.id].Running?)
  }

  /** A failure clears the memo whatever it holds. */
  function Next(w: World, a: Step): World
    requires Enabled(w, a)
  {
    match a
    case Call =>
      if w.memo.Some? then w.(calls := w.calls + [w.memo.value])
      else World(Some(|w.attempts|), w.attempts + [Running], w.calls + [|w.attempts|])
    case Ends(id, ok) =>
      if ok then w.(attempts := w.attempts[id := Started]) else w.(attempts := w.attempts[id := Failed], memo := None)
  }

  class StartMemo {
    var startPromise: Option<nat>

    constructor ()
      ensures startPromise == None
    {
      startPromise := None;
    }

    /** `begins` says that a new attempt is begun, as number `next`. */
    method EnsureStarted(next: nat) returns (id: nat, begins: bool)
      modifies this
      ensures begins == old(startPromise).None? && startPromise == Some(id)
      ensures id == if begins then next else old(startPromise).value
      ensures forall w: World :: w.memo == old(startPromise) && |w.attempts| == next ==> startPromise == Next(w, Call).memo
    {
      begins := startPromise.None?;
      if begins {
        startPromise := Some(next);
      }
      id := startPromise.value;
    }

    /** The end of attempt `id`: a rejection clears the memo before anyone who awaits it sees it. */
    method OnSettled(ghost id: nat, ok: bool)
      modifies this
      ensures startPromise == if ok then old(startPromise) else None
      ensures forall w: World :: w.memo == old(startPromise) && Enabled(w, Ends(id, ok))
                ==> startPromise == Next(w, Ends(id, ok)).memo
    {
      if !ok {
        startPromise := None;
      }
    }
  }

  predicate Legal(w: World, run: seq<Step>)
    decreases |run|
  {
    run == [] || (Enabled(w, run[0]) && Legal(Next(w, run[0]), run[1..]))
  }

  function After(w: World, run: seq<Step>): World
    requires Legal(w, run)
    decreases |run|
  {
    if run == [] then w else After(Next(w, run[0]), run[1..])
  }

  const START: World := World(None, [], [])

  /** Only the memoised attempt can be anything but failed. */
  ghost predicate OneAlive(w: World) {
    && (forall i :: 0 <= i < |w.attempts| && !w.attempts[i].Failed? ==> w.memo == Some(i))
    && (w.memo.Some? ==> w.memo.value < |w.attempts| && !w.attempts[w.memo.value].Failed?)
  }

  lemma KeepsOneAlive(w: World, a: Step)
    requires OneAlive(w) && Enabled(w, a)
    ensures OneAlive(Next(w, a))
  {
  }

  lemma {:induction false} RunsKeepOneAlive(w: World, run: seq<Step>)
    requires OneAlive(w) && Legal(w, run)
    ensures OneAlive(After(w, run))
    decreases |run|
  {
    if run != [] {
      KeepsOneAlive(w, run[0]);
      RunsKeepOneAlive(Next(w, run[0]), run[1..]);
    }
  }

  lemma {:induction false} StartedStays(w: World, run: seq<Step>, id: nat)
    requires OneAlive(w) && Legal(w, run) && id < |w.attempts| && w.attempts[id].Started?
    ensures After(w, run).attempts == w.attempts && After(w, run).memo == Some(id)
    decreases |run|
  {
    if run != [] {
      KeepsOneAlive(w, run[0]);
      StartedStays(Next(w, run[0]), run[1..], id);
    }
  }

  /** In every run: at most one attempt is alive at a time; a call never gets an attempt that has
      failed by then; and once an attempt has worked, no other is ever begun. */
  lemma StartIsSharedAndRetried(run: seq<Step>, more: seq<Step>)
    requires Legal(START, run) && Legal(After(START, run), more)
    ensures var w := After(START, run);
            && (forall i, j :: 0 <= i < j < |w.attempts| ==> w.attempts[i].Failed? || w.attempts[j].Failed?)
            && (var called := Next(w, Call);
                var given := called.calls[|w.calls|];
                given < |called.attempts| && !called.attempts[given].Failed?)
            && (Started in w.attempts ==> After(w, more).attempts == w.attempts)
  {
    RunsKeepOneAlive(START, run);
    var w := After(START, run);
    KeepsOneAlive(w, Call);
    if Started in w.attempts {
      var id :| 0 <= id < |w.attempts| && w.attempts[id] == Started;
      StartedStays(w, more, id);
    }
  }

  function CallsIn(run: seq<Step>): nat {
    if run == [] then 0 else (if run[0].Call? then 1 else 0) + CallsIn(run[1..])
  }

  lemma {:induction false} CallsGet(w: World, run: seq<Step>, id: nat)
    requires OneAlive(w) && Legal(w, run) && id < |w.attempts| && w.attempts[id].Started?
    ensures var after := After(w, run);
            && |after.calls| == |w.calls| + CallsIn(run) && after.calls[..|w.calls|] == w.calls
            && forall i :: |w.calls| <= i < |after.calls| ==> after.calls[i] == id
    decreases |run|
  {
    if run != [] {
      var w1 := Next(w, run[0]);
      KeepsOneAlive(w, run[0]);
      CallsGet(w1, run[1..], id);
      var after := After(w, run);
      assert after == After(w1, run[1..]);
      assert w1.calls[..|w.calls|] == w.calls;
      assert after.calls[..|w.calls|] == after.calls[..|w1.calls|][..|w.calls|];
      assert |w1.calls| > |w.calls| ==> after.calls[|w.calls|] == after.calls[..|w1.calls|][|w.calls|] == id;
    }
  }

  /** Once an attempt has worked, every later call in every run is given that one and none begins
      another. */
  lemma SuccessIsShared(run: seq<Step>, id: nat, more: seq<Step>)
    requires Legal(START, run) && Enabled(After(START, run), Ends(id, true))
    requires Legal(Next(After(START, run), Ends(id, true)), more)
    ensures var w := Next(After(START, run), Ends(id, true));
            var after := After(w, more);
            && after.attempts == w.attempts && |after.calls| == |w.calls| + CallsIn(more)
            && forall i :: |w.calls| <= i < |after.calls| ==> after.calls[i] == id
  {
    RunsKeepOneAlive(START, run);
    var w := Next(After(START, run), Ends(id, true));
    KeepsOneAlive(After(START, run), Ends(id, true));
    StartedStays(w, more, id);
    CallsGet(w, more, id);
  }

  /** Once one has failed, the next call begins another. */
  lemma FailureIsForgotten(run: seq<Step>, id: nat)
    requires Legal(START, run) && Enabled(After(START, run), Ends(id, false))
    ensures var w := Next(After(START, run), Ends(id, false));
            var called := Next(w, Call);
            && w.attempts == After(START, run).attempts[id := Failed]
            && called.attempts == w.attempts + [Running] && called.calls == w.calls + [|w.attempts|]
  {
    RunsKeepOneAlive(START, run);
  }
}
