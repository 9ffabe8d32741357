/** The per-plugin circuit breaker (packages/plugin-host/src/breaker.ts).

    The class carries the source's three mutable fields. Every method is tied to a function on
    `Snapshot`, and the lemmas below speak about whole histories of calls to those functions:
    the state is characterised by the failures recorded since the last success or reset. */
module Breaker {
  import opened Common

  const LPP_BREAKER_FAILURE_THRESHOLD := 5
  const LPP_BREAKER_RESET_TIMEOUT_MS := 60_000

  datatype State = Closed | Open | HalfOpen

  datatype Snapshot = Snapshot(state: State, consecutiveFailures: int, openedAtMs: Option<int>)

  datatype Seed = Seed(consecutiveFailures: int, atMs: int)

  datatype Config = Config(failureThreshold: int, resetTimeoutMs: int)

  function Initial(cfg: Config, seed: Option<Seed>): Snapshot {
    match seed
    case None => Snapshot(Closed, 0, None)
    case Some(sd) =>
      var failures := Max(0, sd.consecutiveFailures);
      if failures >= cfg.failureThreshold
      then Snapshot(Open, failures, Some(sd.atMs))
      else Snapshot(Closed, failures, None)
  }

  function Admitted(cfg: Config, s: Snapshot, nowMs: int): bool {
    match s.state
    case Closed => true
    case HalfOpen => false
    case Open => s.openedAtMs.Some? && nowMs - s.openedAtMs.value >= cfg.resetTimeoutMs
  }

  function AfterBeforeCall(cfg: Config, s: Snapshot, nowMs: int): Snapshot {
    if s.state.Open? && Admitted(cfg, s, nowMs) then s.(state := HalfOpen) else s
  }

  const CLEARED := Snapshot(Closed, 0, None)

  function Trips(cfg: Config, s: Snapshot): bool {
    s.state.Closed? && s.consecutiveFailures + 1 >= cfg.failureThreshold
  }

  function AfterFailure(cfg: Config, s: Snapshot, nowMs: int): Snapshot {
    var failures := s.consecutiveFailures + 1;
    if s.state.HalfOpen? || Trips(cfg, s)
    then Snapshot(Open, failures, Some(nowMs))
    else s.(consecutiveFailures := failures)
  }

  class PluginCircuitBreaker {
    var state: State
    var consecutiveFailures: int
    var openedAtMs: Option<int>
    const failureThreshold: int
    const resetTimeoutMs: int

    function Cfg(): Config {
      Config(failureThreshold, resetTimeoutMs)
    }

    function TakeSnapshot(): Snapshot
      reads this
    {
      Snapshot(state, consecutiveFailures, openedAtMs)
    }

    constructor (failureThreshold: Option<int>, resetTimeoutMs: Option<int>, seed: Option<Seed>)
      ensures Cfg() == Config(failureThreshold.GetOr(LPP_BREAKER_FAILURE_THRESHOLD),
                              resetTimeoutMs.GetOr(LPP_BREAKER_RESET_TIMEOUT_MS))
      ensures TakeSnapshot() == Initial(Cfg(), seed)
    {
      this.failureThreshold := failureThreshold.GetOr(LPP_BREAKER_FAILURE_THRESHOLD);
      this.resetTimeoutMs := resetTimeoutMs.GetOr(LPP_BREAKER_RESET_TIMEOUT_MS);
      state, consecutiveFailures, openedAtMs := Closed, 0, None;
      new;
      if seed.Some? {
        consecutiveFailures := Max(0, seed.value.consecutiveFailures);
        if consecutiveFailures >= this.failureThreshold {
          state := Open;
          openedAtMs := Some(seed.value.atMs);
        }
      }
    }

    method BeforeCall(nowMs: int) returns (allowed: bool)
      modifies this
      ensures allowed == Admitted(Cfg(), old(TakeSnapshot()), nowMs)
      ensures TakeSnapshot() == AfterBeforeCall(Cfg(), old(TakeSnapshot()), nowMs)
    {
      if state.Closed? {
        return true;
      }
      if state.HalfOpen? {
        return false;
      }
      if openedAtMs.Some? && nowMs - openedAtMs.value >= resetTimeoutMs {
        state := HalfOpen;
        return true;
      }
      return false;
    }

    method OnSuccess()
      modifies this
      ensures TakeSnapshot() == CLEARED
    {
      state, consecutiveFailures, openedAtMs := Closed, 0, None;
    }

    method OnFailure(nowMs: int) returns (tripped: bool, failures: int)
      modifies this
      ensures tripped == Trips(Cfg(), old(TakeSnapshot()))
      ensures failures == consecutiveFailures
      ensures TakeSnapshot() == AfterFailure(Cfg(), old(TakeSnapshot()), nowMs)
    {
      consecutiveFailures := consecutiveFailures + 1;
      if state.HalfOpen? {
        state := Open;
        openedAtMs := Some(nowMs);
        return false, consecutiveFailures;
      }
      if !state.Open? && consecutiveFailures >= failureThreshold {
        state := Open;
        openedAtMs := Some(nowMs);
        return true, consecutiveFailures;
      }
      return false, consecutiveFailures;
    }

    method Reset()
      modifies this
      ensures TakeSnapshot() == CLEARED
    {
      state, consecutiveFailures, openedAtMs := Closed, 0, None;
    }
  }

  // ---------------------------------------------------------------- histories

  datatype Event =
    | BeforeCall(nowMs: int)
    | OnSuccess
    | OnFailure(nowMs: int)
    | Reset

  predicate Clears(e: Event) {
    e.OnSuccess? || e.Reset?
  }

  function Step(cfg: Config, s: Snapshot, e: Event): Snapshot {
    match e
    case BeforeCall(nowMs) => AfterBeforeCall(cfg, s, nowMs)
    case OnSuccess => CLEARED
    case OnFailure(nowMs) => AfterFailure(cfg, s, nowMs)
    case Reset => CLEARED
  }

  /** The breaker after a whole history of calls, in any order and from any number of callers. */
  function After(cfg: Config, seed: Option<Seed>, events: seq<Event>): Snapshot {
    if events == [] then Initial(cfg, seed)
    else Step(cfg, After(cfg, seed, events[..|events| - 1]), events[|events| - 1])
  }

  /** The state in which event `i` is processed. */
  function At(cfg: Config, seed: Option<Seed>, events: seq<Event>, i: nat): Snapshot
    requires i <= |events|
  {
    After(cfg, seed, events[..i])
  }

  lemma AtNext(cfg: Config, seed: Option<Seed>, events: seq<Event>, i: nat)
    requires i < |events|
    ensures At(cfg, seed, events, i + 1) == Step(cfg, At(cfg, seed, events, i), events[i])
  {
    assert events[..i + 1][..i] == events[..i];
  }

  predicate AdmittedAt(cfg: Config, seed: Option<Seed>, events: seq<Event>, i: nat)
    requires i < |events|
  {
    events[i].BeforeCall? && Admitted(cfg, At(cfg, seed, events, i), events[i].nowMs)
  }

  /** Event `i` is a trial: a call let through while the breaker was open. */
  predicate TrialAt(cfg: Config, seed: Option<Seed>, events: seq<Event>, i: nat)
    requires i < |events|
  {
    AdmittedAt(cfg, seed, events, i) && At(cfg, seed, events, i).state.Open?
  }

  predicate TrippedAt(cfg: Config, seed: Option<Seed>, events: seq<Event>, i: nat)
    requires i < |events|
  {
    events[i].OnFailure? && Trips(cfg, At(cfg, seed, events, i))
  }

  /** Event `i` opens the breaker. */
  predicate OpensAt(cfg: Config, seed: Option<Seed>, events: seq<Event>, i: nat)
    requires i < |events|
  {
    !At(cfg, seed, events, i).state.Open? && At(cfg, seed, events, i + 1).state.Open?
  }

  function FailuresSeeded(seed: Option<Seed>): int {
    match seed
    case None => 0
    case Some(sd) => Max(0, sd.consecutiveFailures)
  }

  function CountFailures(events: seq<Event>): nat {
    if events == [] then 0
    else CountFailures(events[..|events| - 1]) + (if events[|events| - 1].OnFailure? then 1 else 0)
  }

  /** `k` is where the current run of failures starts: the beginning of the history, or just after
      the last event that cleared the count. */
  predicate RunStartsAt(events: seq<Event>, k: nat) {
    && k <= |events|
    && (k > 0 ==> Clears(events[k - 1]))
    && (forall i :: k <= i < |events| ==> !Clears(events[i]))
  }

  /** The count continues the durable seed until something clears it, and from then on it is the
      number of failures recorded since. */
  lemma {:induction false} CountIsSeedPlusFailures(cfg: Config, seed: Option<Seed>, events: seq<Event>, k: nat)
    requires RunStartsAt(events, k)
    ensures After(cfg, seed, events).consecutiveFailures
         == (if k == 0 then FailuresSeeded(seed) else 0) + CountFailures(events[k..])
  {
    var n := |events|;
    if n == k {
      assert events[k..] == [];
    } else {
      var front := events[..n - 1];
      CountIsSeedPlusFailures(cfg, seed, front, k);
      assert events[k..][..|events[k..]| - 1] == front[k..];
      assert events[k..][|events[k..]| - 1] == events[n - 1];
    }
  }

  /** Closed is exactly "fewer failures than the threshold", and the opening time is known exactly
      when the breaker is not closed. */
  lemma {:induction false} ClosedIffBelowThreshold(cfg: Config, seed: Option<Seed>, events: seq<Event>)
    requires cfg.failureThreshold >= 1
    ensures var s := After(cfg, seed, events);
            && (s.state.Closed? <==> s.consecutiveFailures < cfg.failureThreshold)
            && (s.state.Closed? <==> s.openedAtMs.None?)
            && s.consecutiveFailures >= 0
  {
    if events != [] {
      ClosedIffBelowThreshold(cfg, seed, events[..|events| - 1]);
    }
  }

  /** A threshold below one breaks that: a fresh breaker is closed at its threshold. */
  lemma ZeroThresholdStartsClosed()
    ensures var s := After(Config(0, LPP_BREAKER_RESET_TIMEOUT_MS), None, []);
            s.state.Closed? && !(s.consecutiveFailures < 0)
  {
  }

  /** `tripped` is reported exactly on the calls that take the breaker from closed to open. */
  lemma TrippedIffClosedToOpen(cfg: Config, seed: Option<Seed>, events: seq<Event>, i: nat)
    requires i < |events|
    ensures TrippedAt(cfg, seed, events, i)
       <==> At(cfg, seed, events, i).state.Closed? && At(cfg, seed, events, i + 1).state.Open?
  {
    AtNext(cfg, seed, events, i);
  }

  lemma {:induction false} StaysNotClosed(cfg: Config, seed: Option<Seed>, events: seq<Event>, i: nat, j: nat)
    requires i <= j <= |events|
    requires !At(cfg, seed, events, i).state.Closed?
    requires forall k :: i <= k < j ==> !Clears(events[k])
    ensures !At(cfg, seed, events, j).state.Closed?
    decreases j - i
  {
    if i < j {
      AtNext(cfg, seed, events, i);
      StaysNotClosed(cfg, seed, events, i + 1, j);
    }
  }

  /** Between two trips something cleared the breaker, so one outage is reported once. */
  lemma TripsAreSeparated(cfg: Config, seed: Option<Seed>, events: seq<Event>, i: nat, j: nat)
    requires i < j < |events|
    requires TrippedAt(cfg, seed, events, i) && TrippedAt(cfg, seed, events, j)
    ensures exists k :: i < k < j && Clears(events[k])
  {
    TrippedIffClosedToOpen(cfg, seed, events, i);
    if forall k :: i < k < j ==> !Clears(events[k]) {
      StaysNotClosed(cfg, seed, events, i + 1, j);
    }
  }

  lemma {:induction false} StaysHalfOpen(cfg: Config, seed: Option<Seed>, events: seq<Event>, i: nat, j: nat)
    requires i <= j <= |events|
    requires At(cfg, seed, events, i).state.HalfOpen?
    requires forall k :: i <= k < j ==> events[k].BeforeCall?
    ensures At(cfg, seed, events, j) == At(cfg, seed, events, i)
    decreases j - i
  {
    if i < j {
      AtNext(cfg, seed, events, i);
      StaysHalfOpen(cfg, seed, events, i + 1, j);
    }
  }

  /** One trial per half-open period: after a trial, no call at all is admitted until an outcome
      is recorded or the breaker is reset. */
  lemma OneTrialPerHalfOpenPeriod(cfg: Config, seed: Option<Seed>, events: seq<Event>, i: nat, j: nat)
    requires i < j < |events|
    requires TrialAt(cfg, seed, events, i) && AdmittedAt(cfg, seed, events, j)
    ensures exists k :: i < k < j && !events[k].BeforeCall?
  {
    AtNext(cfg, seed, events, i);
    if forall k :: i < k < j ==> events[k].BeforeCall? {
      StaysHalfOpen(cfg, seed, events, i + 1, j);
    }
  }

  /** Event `i` admits a trial, and only calls come after it: neither an outcome nor a reset. */
  predicate UnansweredTrial(cfg: Config, seed: Option<Seed>, events: seq<Event>, i: nat)
    requires i < |events|
  {
    TrialAt(cfg, seed, events, i) && forall k :: i < k < |events| ==> events[k].BeforeCall?
  }

  lemma HalfOpenBefore(cfg: Config, seed: Option<Seed>, events: seq<Event>, i: nat)
    requires i < |events| && At(cfg, seed, events, i + 1).state.HalfOpen?
    ensures TrialAt(cfg, seed, events, i)
         || (events[i].BeforeCall? && At(cfg, seed, events, i).state.HalfOpen?)
  {
    AtNext(cfg, seed, events, i);
  }

  lemma SameTrial(cfg: Config, seed: Option<Seed>, events: seq<Event>, n: nat, i: nat)
    requires i < n <= |events|
    ensures TrialAt(cfg, seed, events[..n], i) <==> TrialAt(cfg, seed, events, i)
  {
    assert events[..n][..i] == events[..i];
  }

  lemma TrialLeavesHalfOpen(cfg: Config, seed: Option<Seed>, events: seq<Event>, i: nat)
    requires i < |events| && UnansweredTrial(cfg, seed, events, i)
    ensures After(cfg, seed, events).state.HalfOpen?
  {
    AtNext(cfg, seed, events, i);
    StaysHalfOpen(cfg, seed, events, i + 1, |events|);
    assert events[..|events|] == events;
  }

  lemma {:induction false} TrialOfHalfOpen(cfg: Config, seed: Option<Seed>, events: seq<Event>) returns (i: nat)
    requires After(cfg, seed, events).state.HalfOpen? && events != []
    ensures i < |events| && UnansweredTrial(cfg, seed, events, i)
    decreases |events|
  {
    i := |events| - 1;
    assert events[..i + 1] == events;
    HalfOpenBefore(cfg, seed, events, i);
    if !TrialAt(cfg, seed, events, i) {
      var n := i;
      NoTrialYet(cfg, seed);
      i := TrialOfHalfOpen(cfg, seed, events[..n]);
      SameTrial(cfg, seed, events, n, i);
    }
  }

  lemma NoTrialYet(cfg: Config, seed: Option<Seed>)
    ensures !After(cfg, seed, []).state.HalfOpen?
  {
  }

  /** The breaker is half-open exactly while the last thing that mattered was a trial: some trial
      has been admitted and no outcome or reset has been recorded since. */
  lemma HalfOpenIffUnansweredTrial(cfg: Config, seed: Option<Seed>, events: seq<Event>)
    ensures After(cfg, seed, events).state.HalfOpen?
       <==> exists i :: 0 <= i < |events| && UnansweredTrial(cfg, seed, events, i)
  {
    if i :| 0 <= i < |events| && UnansweredTrial(cfg, seed, events, i) {
      TrialLeavesHalfOpen(cfg, seed, events, i);
    }
    NoTrialYet(cfg, seed);
    if After(cfg, seed, events).state.HalfOpen? {
      var i := TrialOfHalfOpen(cfg, seed, events);
    }
  }

  lemma {:induction false} OpenKeepsItsClock(cfg: Config, seed: Option<Seed>, events: seq<Event>, i: nat, j: nat)
    requires i <= j <= |events|
    requires At(cfg, seed, events, i).state.Open?
    requires forall k :: i <= k < j ==> !Clears(events[k]) && !AdmittedAt(cfg, seed, events, k)
    ensures At(cfg, seed, events, j).state.Open?
    ensures At(cfg, seed, events, j).openedAtMs == At(cfg, seed, events, i).openedAtMs
    decreases j - i
  {
    if i < j {
      AtNext(cfg, seed, events, i);
      OpenKeepsItsClock(cfg, seed, events, i + 1, j);
    }
  }

  /** The cool-down is exact. Once a failure at time `t` opens the breaker, the next call while it
      stays open is admitted if and only if the reset timeout has elapsed since `t`; failures
      reported late do not move that clock. */
  lemma CooldownIsExact(cfg: Config, seed: Option<Seed>, events: seq<Event>, i: nat, j: nat)
    requires i < j < |events| && events[j].BeforeCall?
    requires OpensAt(cfg, seed, events, i)
    requires forall k :: i < k < j ==> !Clears(events[k]) && !AdmittedAt(cfg, seed, events, k)
    ensures events[i].OnFailure?
    ensures AdmittedAt(cfg, seed, events, j) <==> events[j].nowMs - events[i].nowMs >= cfg.resetTimeoutMs
  {
    AtNext(cfg, seed, events, i);
    OpenKeepsItsClock(cfg, seed, events, i + 1, j);
  }

  /** A breaker that the durable seed opens cools down from the seed's own time: the first call is
      admitted if and only if the reset timeout has elapsed since then. */
  lemma SeededCooldownIsExact(cfg: Config, sd: Seed, events: seq<Event>, j: nat)
    requires j < |events| && events[j].BeforeCall?
    requires Max(0, sd.consecutiveFailures) >= cfg.failureThreshold
    requires forall k :: 0 <= k < j ==> !Clears(events[k]) && !AdmittedAt(cfg, Some(sd), events, k)
    ensures AdmittedAt(cfg, Some(sd), events, j) <==> events[j].nowMs - sd.atMs >= cfg.resetTimeoutMs
  {
    assert events[..0] == [];
    OpenKeepsItsClock(cfg, Some(sd), events, 0, j);
  }
}
