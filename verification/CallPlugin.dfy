/** The two callers of the breaker: `callPlugin` (packages/plugin-host/src/call-plugin.ts) and
    `fetchPluginManifest` (packages/plugin-host/src/manifest-client.ts).

    A call is two separate steps around a network wait: admission, then recording an outcome with
    the clock reading taken at admission. The methods run one call start to finish; the second half
    of the module lets any number of calls interleave. */
module CallPlugin {
  import opened Common
  import opened Breaker

  datatype RejectionReason =
    | UnsupportedScheme
    | InvalidUrl
    | DnsResolutionFailed
    | DisallowedAddress
    | RedirectNotFollowed
    | Timeout
    | NetworkError
    | ResponseTooLarge

  /** How `hardenedFetch` ended: a response, a typed rejection, or a throw it did not classify. */
  datatype FetchOutcome =
    | Responded(status: int, bodyText: string)
    | Rejected(reason: RejectionReason)
    | Threw

  datatype CallPluginResult =
    | Responded200Range(status: int, bodyText: string)
    | RespondedOther(status: int, bodyText: string)
    | CircuitOpen
    | TransportFailure(reason: RejectionReason)

  predicate Counted(reason: RejectionReason) {
    reason.Timeout? || reason.NetworkError?
  }

  predicate IsHttpSuccess(status: int) {
    200 <= status < 300
  }

  /** The breaker event an outcome is recorded as, if it is recorded at all. */
  function Recorded(nowMs: int, outcome: FetchOutcome): Option<Event> {
    match outcome
    case Responded(status, _) => if IsHttpSuccess(status) then Some(OnSuccess) else Some(OnFailure(nowMs))
    case Rejected(reason) => if Counted(reason) then Some(OnFailure(nowMs)) else None
    case Threw => Some(OnFailure(nowMs))
  }

  function AfterOutcome(cfg: Config, s: Snapshot, nowMs: int, outcome: FetchOutcome): Snapshot {
    match Recorded(nowMs, outcome)
    case None => s
    case Some(e) => Step(cfg, s, e)
  }

  /** The breaker after one whole call with nothing else in between. */
  function AfterCall(cfg: Config, s: Snapshot, nowMs: int, outcome: FetchOutcome): Snapshot {
    if Admitted(cfg, s, nowMs)
    then AfterOutcome(cfg, AfterBeforeCall(cfg, s, nowMs), nowMs, outcome)
    else s
  }

  /** Which outcomes of a call through a closed breaker count against the plugin: exactly these add one
      failure, a status from 200 to 299 alone clears them, and the six rejections that say nothing of
      the plugin's health leave the count as it was. */
  lemma ClosedCallCounts(cfg: Config, s: Snapshot, nowMs: int, outcome: FetchOutcome)
    requires s.state.Closed? && s.consecutiveFailures > 0
    ensures var after := AfterCall(cfg, s, nowMs, outcome).consecutiveFailures;
            && (after == s.consecutiveFailures + 1
                <==> || outcome == Rejected(Timeout) || outcome == Rejected(NetworkError) || outcome == Threw
                     || (outcome.Responded? && (outcome.status < 200 || outcome.status > 299)))
            && (after == 0 <==> outcome.Responded? && 200 <= outcome.status <= 299)
            && (after == s.consecutiveFailures
                <==> || outcome == Rejected(UnsupportedScheme) || outcome == Rejected(InvalidUrl)
                     || outcome == Rejected(DnsResolutionFailed) || outcome == Rejected(DisallowedAddress)
                     || outcome == Rejected(RedirectNotFollowed) || outcome == Rejected(ResponseTooLarge))
  {
  }

  method RecordOutcome(breaker: PluginCircuitBreaker, nowMs: int, outcome: FetchOutcome)
    modifies breaker
    ensures breaker.TakeSnapshot() == AfterOutcome(breaker.Cfg(), old(breaker.TakeSnapshot()), nowMs, outcome)
  {
    match outcome {
      case Responded(status, _) =>
        if IsHttpSuccess(status) {
          breaker.OnSuccess();
        } else {
          var _, _ := breaker.OnFailure(nowMs);
        }
      case Rejected(reason) =>
        if Counted(reason) {
          var _, _ := breaker.OnFailure(nowMs);
        }
      case Threw =>
        var _, _ := breaker.OnFailure(nowMs);
    }
  }

  /** `breaker` may be absent, which skips gating and recording. `outcome` is what the fetch would
      do; it is not consulted when admission is refused. */
  method Call(breaker: PluginCircuitBreaker?, nowMs: int, outcome: FetchOutcome)
    returns (result: CallPluginResult, contacted: bool)
    modifies breaker
    ensures breaker == null ==> contacted
    ensures breaker != null ==>
      && contacted == Admitted(breaker.Cfg(), old(breaker.TakeSnapshot()), nowMs)
      && breaker.TakeSnapshot() == AfterCall(breaker.Cfg(), old(breaker.TakeSnapshot()), nowMs, outcome)
    ensures result.CircuitOpen? <==> !contacted
    ensures contacted ==>
      match outcome
      case Responded(status, body) =>
        result == if IsHttpSuccess(status) then Responded200Range(status, body) else RespondedOther(status, body)
      case Rejected(reason) => result == TransportFailure(reason)
      case Threw => result == TransportFailure(NetworkError)
  {
    contacted := true;
    if breaker != null {
      contacted := breaker.BeforeCall(nowMs);
      if !contacted {
        return CircuitOpen, false;
      }
      RecordOutcome(breaker, nowMs, outcome);
    }
    match outcome {
      case Responded(status, body) =>
        result := if IsHttpSuccess(status) then Responded200Range(status, body) else RespondedOther(status, body);
      case Rejected(reason) =>
        result := TransportFailure(reason);
      case Threw =>
        result := TransportFailure(NetworkError);
    }
  }

  datatype ManifestParse<M, F> =
    | BadJson
    | ParseThrew
    | Unacceptable(failure: F)
    | Acceptable(manifest: M)

  datatype FetchManifestResult<M, F> =
    | Manifest(manifest: M)
    | ManifestCircuitOpen
    | Transport(reason: RejectionReason)
    | HttpStatus(status: int)
    | Json
    | InternalError
    | ParseFailure(failure: F)

  /** `parse` stands for `JSON.parse` followed by the staged manifest parse of the body. The breaker
      effect is the same as `Call`'s for the same transport outcome, whatever the parse says. */
  method FetchManifest<M, F>(breaker: PluginCircuitBreaker?, nowMs: int, outcome: FetchOutcome,
                             parse: string -> ManifestParse<M, F>)
    returns (result: FetchManifestResult<M, F>)
    modifies breaker
    ensures breaker != null ==>
      breaker.TakeSnapshot() == AfterCall(breaker.Cfg(), old(breaker.TakeSnapshot()), nowMs, outcome)
    ensures result.ManifestCircuitOpen?
       <==> breaker != null && !Admitted(breaker.Cfg(), old(breaker.TakeSnapshot()), nowMs)
    ensures !result.ManifestCircuitOpen? ==>
      match outcome
      case Rejected(reason) => result == Transport(reason)
      case Threw => result == InternalError
      case Responded(status, body) =>
        if !IsHttpSuccess(status) then result == HttpStatus(status)
        else match parse(body)
             case BadJson => result == Json
             case ParseThrew => result == InternalError
             case Unacceptable(f) => result == ParseFailure(f)
             case Acceptable(m) => result == Manifest(m)
  {
    if breaker != null {
      var allowed := breaker.BeforeCall(nowMs);
      if !allowed {
        return ManifestCircuitOpen;
      }
      RecordOutcome(breaker, nowMs, outcome);
    }
    match outcome {
      case Rejected(reason) =>
        return Transport(reason);
      case Threw =>
        return InternalError;
      case Responded(status, body) =>
        if !IsHttpSuccess(status) {
          return HttpStatus(status);
        }
        match parse(body) {
          case BadJson => return Json;
          case ParseThrew => return InternalError;
          case Unacceptable(f) => return ParseFailure(f);
          case Acceptable(m) => return Manifest(m);
        }
    }
  }

  // ---------------------------------------------------------------- interleaved calls

  type CallId = nat

  datatype InFlight = InFlight(nowMs: int, trial: bool)

  datatype Host = Host(breaker: Snapshot, inFlight: map<CallId, InFlight>)

  /** `Begin` is the admission half of a call and `Finish` the recording half. */
  datatype Action =
    | Begin(id: CallId, nowMs: int)
    | Finish(id: CallId, outcome: FetchOutcome)
    | ManualReset

  predicate Enabled(h: Host, a: Action) {
    match a
    case Begin(id, _) => id !in h.inFlight
    case Finish(id, _) => id in h.inFlight
    case ManualReset => true
  }

  predicate Admits(cfg: Config, h: Host, a: Action) {
    a.Begin? && Admitted(cfg, h.breaker, a.nowMs)
  }

  function Act(cfg: Config, h: Host, a: Action): Host {
    match a
    case Begin(id, nowMs) =>
      if Admitted(cfg, h.breaker, nowMs)
      then Host(AfterBeforeCall(cfg, h.breaker, nowMs), h.inFlight[id := InFlight(nowMs, h.breaker.state.Open?)])
      else h
    case Finish(id, outcome) =>
      if id !in h.inFlight then h
      else Host(AfterOutcome(cfg, h.breaker, h.inFlight[id].nowMs, outcome), h.inFlight - {id})
    case ManualReset => h.(breaker := CLEARED)
  }

  function ActAll(cfg: Config, h: Host, actions: seq<Action>): Host {
    if actions == [] then h
    else Act(cfg, ActAll(cfg, h, actions[..|actions| - 1]), actions[|actions| - 1])
  }

  /** Every enabled action of a run, seen from the breaker, is at most one breaker event. */
  function EventOf(h: Host, a: Action): seq<Event> {
    match a
    case Begin(_, nowMs) => [BeforeCall(nowMs)]
    case Finish(id, outcome) =>
      if id !in h.inFlight then []
      else match Recorded(h.inFlight[id].nowMs, outcome) { case None => [] case Some(e) => [e] }
    case ManualReset => [Reset]
  }

  function EventsOf(cfg: Config, h: Host, actions: seq<Action>): seq<Event> {
    if actions == [] then []
    else
      var front := actions[..|actions| - 1];
      EventsOf(cfg, h, front) + EventOf(ActAll(cfg, h, front), actions[|actions| - 1])
  }

  function FreshHost(cfg: Config, seed: Option<Seed>): Host {
    Host(Initial(cfg, seed), map[])
  }

  /** So everything the `Breaker` module proves about histories holds of every interleaving. */
  lemma {:induction false} InterleavingIsAHistory(cfg: Config, seed: Option<Seed>, actions: seq<Action>)
    ensures var h := FreshHost(cfg, seed);
            ActAll(cfg, h, actions).breaker == After(cfg, seed, EventsOf(cfg, h, actions))
  {
    if actions != [] {
      var h := FreshHost(cfg, seed);
      var front, last := actions[..|actions| - 1], actions[|actions| - 1];
      InterleavingIsAHistory(cfg, seed, front);
      var before, added := EventsOf(cfg, h, front), EventOf(ActAll(cfg, h, front), last);
      if added == [] {
        assert before + added == before;
      } else {
        assert (before + added)[..|before|] == before;
      }
    }
  }

  /** A trial closes the breaker exactly on a status from 200 to 299, re-opens it from now exactly on a
      timeout, a network error, a throw or any other status, and leaves it half-open on every other
      rejection. */
  lemma TrialLeavesHalfOpenIffRecorded(cfg: Config, s: Snapshot, nowMs: int, outcome: FetchOutcome)
    requires s.state.HalfOpen?
    ensures var after := AfterOutcome(cfg, s, nowMs, outcome);
            && (after == Snapshot(Closed, 0, None) <==> outcome.Responded? && 200 <= outcome.status <= 299)
            && (after == Snapshot(Open, s.consecutiveFailures + 1, Some(nowMs))
                <==> || outcome == Rejected(Timeout) || outcome == Rejected(NetworkError) || outcome == Threw
                     || (outcome.Responded? && (outcome.status < 200 || outcome.status > 299)))
            && (after.state.HalfOpen? ==> after == s)
  {
  }

  /** Hence an uncounted rejection of the trial wedges the plugin: with nothing in flight, no run
      ever admits another call until an operator resets the breaker. */
  lemma {:induction false} UncountedTrialWedges(cfg: Config, h: Host, actions: seq<Action>)
    requires h.breaker.state.HalfOpen? && h.inFlight == map[]
    requires ManualReset !in actions
    ensures ActAll(cfg, h, actions) == h
    ensures forall a: Action :: !Admits(cfg, ActAll(cfg, h, actions), a)
  {
    if actions != [] {
      UncountedTrialWedges(cfg, h, actions[..|actions| - 1]);
    }
  }

  /** Calls made one after another, with operator resets between them. */
  datatype CallStep =
    | PluginCall(nowMs: int, outcome: FetchOutcome)
    | OperatorReset

  function AfterCalls(cfg: Config, seed: Option<Seed>, calls: seq<CallStep>): Snapshot {
    if calls == [] then Initial(cfg, seed)
    else
      var s := AfterCalls(cfg, seed, calls[..|calls| - 1]);
      match calls[|calls| - 1]
      case PluginCall(nowMs, outcome) => AfterCall(cfg, s, nowMs, outcome)
      case OperatorReset => CLEARED
  }

  /** The failures since the last success or reset, told from the outcomes alone. */
  ghost function Streak(calls: seq<CallStep>): nat {
    if calls == [] then 0
    else
      var before := Streak(calls[..|calls| - 1]);
      match calls[|calls| - 1]
      case OperatorReset => 0
      case PluginCall(_, Responded(status, _)) => if status < 200 || status > 299 then before + 1 else 0
      case PluginCall(_, Threw) => before + 1
      case PluginCall(_, Rejected(Timeout)) => before + 1
      case PluginCall(_, Rejected(NetworkError)) => before + 1
      case PluginCall(_, Rejected(UnsupportedScheme)) => before
      case PluginCall(_, Rejected(InvalidUrl)) => before
      case PluginCall(_, Rejected(DnsResolutionFailed)) => before
      case PluginCall(_, Rejected(DisallowedAddress)) => before
      case PluginCall(_, Rejected(RedirectNotFollowed)) => before
      case PluginCall(_, Rejected(ResponseTooLarge)) => before
  }

  /** From a fresh breaker the count is the streak of the calls made, and the breaker opens at exactly
      the call that brings the streak to the threshold, with that call's clock reading. */
  lemma {:induction false} OpensAtThresholdStreak(cfg: Config, calls: seq<CallStep>)
    requires forall k :: 0 <= k < |calls| ==> Streak(calls[..k]) < cfg.failureThreshold
    requires cfg.failureThreshold >= 1
    ensures var s := AfterCalls(cfg, None, calls);
            && s.consecutiveFailures == Streak(calls)
            && s.state == (if Streak(calls) >= cfg.failureThreshold then Open else Closed)
            && s.openedAtMs == (if s.state == Open then Some(calls[|calls| - 1].nowMs) else None)
  {
    if calls != [] {
      var front := calls[..|calls| - 1];
      assert forall k :: 0 <= k <= |front| ==> front[..k] == calls[..k];
      assert calls[..|front|] == front;
      OpensAtThresholdStreak(cfg, front);
    }
  }

  /** Call `i` was admitted as a trial and ended in a rejection that is not counted. */
  predicate UncountedTrialAt(cfg: Config, seed: Option<Seed>, calls: seq<CallStep>, i: nat)
    requires i < |calls|
  {
    var s := AfterCalls(cfg, seed, calls[..i]);
    && calls[i].PluginCall?
    && s.state.Open? && Admitted(cfg, s, calls[i].nowMs)
    && calls[i].outcome.Rejected? && !calls[i].outcome.reason.Timeout? && !calls[i].outcome.reason.NetworkError?
  }

  /** Between calls the breaker is half-open, and so refuses everything, exactly when some trial
      ended in an uncounted rejection and no operator has reset it since. */
  lemma {:induction false} WedgedIffUncountedTrial(cfg: Config, seed: Option<Seed>, calls: seq<CallStep>)
    ensures AfterCalls(cfg, seed, calls).state.HalfOpen?
       <==> exists i :: 0 <= i < |calls| && UncountedTrialAt(cfg, seed, calls, i)
                     && forall k :: i < k < |calls| ==> !calls[k].OperatorReset?
  {
    if calls != [] {
      var n := |calls| - 1;
      var front := calls[..n];
      WedgedIffUncountedTrial(cfg, seed, front);
      assert forall i :: 0 <= i <= n ==> front[..i] == calls[..i];
      assert forall i :: 0 <= i < n ==> (UncountedTrialAt(cfg, seed, front, i) <==> UncountedTrialAt(cfg, seed, calls, i));
      if AfterCalls(cfg, seed, front).state.HalfOpen? && calls[n].PluginCall? {
        var i :| 0 <= i < n && UncountedTrialAt(cfg, seed, front, i)
              && forall k :: i < k < n ==> !front[k].OperatorReset?;
        assert UncountedTrialAt(cfg, seed, calls, i);
      } else if AfterCalls(cfg, seed, calls).state.HalfOpen? {
        assert UncountedTrialAt(cfg, seed, calls, n);
      } else if calls[n].PluginCall? {
        assert !UncountedTrialAt(cfg, seed, calls, n);
      }
    }
  }

  predicate OnlyTrialInFlight(h: Host, id: CallId) {
    h.breaker.state.HalfOpen? && h.inFlight.Keys == {id}
  }

  /** A trial admitted while no other call is in flight stays alone: until it finishes (or an
      operator resets the breaker) no other call is admitted in any interleaving. */
  lemma {:induction false} TrialStaysAlone(cfg: Config, h: Host, id: CallId, nowMs: int, actions: seq<Action>)
    requires h.breaker.state.Open? && h.inFlight == map[] && Admits(cfg, h, Begin(id, nowMs))
    requires ManualReset !in actions
    requires forall i :: 0 <= i < |actions| ==> !(actions[i].Finish? && actions[i].id == id)
    ensures var g := ActAll(cfg, Act(cfg, h, Begin(id, nowMs)), actions);
            OnlyTrialInFlight(g, id) && forall a: Action :: !Admits(cfg, g, a)
  {
    var h1 := Act(cfg, h, Begin(id, nowMs));
    if actions != [] {
      var front, last := actions[..|actions| - 1], actions[|actions| - 1];
      TrialStaysAlone(cfg, h, id, nowMs, front);
      var g := ActAll(cfg, h1, front);
      assert last.Finish? ==> last.id !in g.inFlight;
    }
  }

  predicate LegalRun(cfg: Config, h: Host, actions: seq<Action>) {
    actions == []
    || (LegalRun(cfg, h, actions[..|actions| - 1])
        && Enabled(ActAll(cfg, h, actions[..|actions| - 1]), actions[|actions| - 1]))
  }

  /** No operator resets the breaker and call `id` does not finish. */
  predicate LeavesUnanswered(actions: seq<Action>, id: CallId) {
    forall i :: 0 <= i < |actions| ==> !actions[i].ManualReset? && !(actions[i].Finish? && actions[i].id == id)
  }

  /** Call `id` is answered by nothing in this run, and another call is admitted beside it at its end. */
  predicate AdmitsBeside(cfg: Config, h: Host, id: CallId, actions: seq<Action>, a: Action) {
    && LegalRun(cfg, h, actions) && LeavesUnanswered(actions, id)
    && Enabled(ActAll(cfg, h, actions), a) && Admits(cfg, ActAll(cfg, h, actions), a)
  }

  /** Any call that is in flight beside a trial can let a second trial in: it fails with a counted
      reason, which re-opens the breaker with its own old clock reading. */
  lemma StaleFailureReopens(cfg: Config, h: Host, other: CallId, now: int)
    requires h.breaker.state.HalfOpen? && other in h.inFlight && now - h.inFlight[other].nowMs >= cfg.resetTimeoutMs
    ensures var finish, begin := Finish(other, Rejected(Timeout)), Begin(other, now);
            var after := Act(cfg, Act(cfg, h, finish), begin);
            && LegalRun(cfg, h, [finish]) && ActAll(cfg, h, [finish]) == Act(cfg, h, finish)
            && Enabled(Act(cfg, h, finish), begin) && Admits(cfg, Act(cfg, h, finish), begin)
            && after.inFlight[other] == InFlight(now, true)
            && forall id :: id in h.inFlight && id != other ==> id in after.inFlight && after.inFlight[id] == h.inFlight[id]
  {
    var finish := Finish(other, Rejected(Timeout));
    assert [finish][..0] == [];
    assert LegalRun(cfg, h, []) && ActAll(cfg, h, []) == h;
  }

  /** "Never a stampede of trial calls", exactly: some run without a reset admits another call beside an
      unanswered trial if and only if another call was in flight when the trial was admitted. */
  lemma TrialIsAloneIff(cfg: Config, h: Host, id: CallId, nowMs: int)
    requires h.breaker.state.Open? && Enabled(h, Begin(id, nowMs)) && Admits(cfg, h, Begin(id, nowMs))
    ensures (exists actions, a :: AdmitsBeside(cfg, Act(cfg, h, Begin(id, nowMs)), id, actions, a))
       <==> h.inFlight != map[]
  {
    var trial := Act(cfg, h, Begin(id, nowMs));
    if h.inFlight == map[] {
      forall actions: seq<Action>, a: Action | LeavesUnanswered(actions, id)
        ensures !Admits(cfg, ActAll(cfg, trial, actions), a)
      {
        TrialStaysAlone(cfg, h, id, nowMs, actions);
      }
    } else {
      assert h.inFlight.Keys != {};
      var other :| other in h.inFlight;
      var now := trial.inFlight[other].nowMs + cfg.resetTimeoutMs;
      StaleFailureReopens(cfg, trial, other, now);
      var actions, a := [Finish(other, Rejected(Timeout))], Begin(other, now);
      assert LeavesUnanswered(actions, id);
      assert AdmitsBeside(cfg, trial, id, actions, a);
    }
  }

  /** Such a run from a fresh breaker: a call admitted while it was closed fails during the trial, with
      an old clock reading that lets a second trial in straight away. */
  lemma StaleFailureAdmitsSecondTrial()
    ensures var cfg := Config(1, 60);
            var run := [Begin(0, 0), Begin(1, 0), Finish(1, Rejected(Timeout)), Begin(2, 60),
                        Finish(0, Rejected(Timeout)), Begin(3, 60)];
            var h := ActAll(cfg, FreshHost(cfg, None), run);
            && 2 in h.inFlight && h.inFlight[2].trial
            && 3 in h.inFlight && h.inFlight[3].trial
  {
    var cfg := Config(1, 60);
    var h0 := FreshHost(cfg, None);
    var run := [Begin(0, 0), Begin(1, 0), Finish(1, Rejected(Timeout)), Begin(2, 60),
                Finish(0, Rejected(Timeout)), Begin(3, 60)];
    var h1 := Act(cfg, h0, run[0]);
    var h2 := Act(cfg, h1, run[1]);
    var h3 := Act(cfg, h2, run[2]);
    var h4 := Act(cfg, h3, run[3]);
    var h5 := Act(cfg, h4, run[4]);
    assert run[..5][..4] == run[..4];
    assert run[..4][..3] == run[..3];
    assert run[..3][..2] == run[..2];
    assert run[..2][..1] == run[..1];
    assert run[..1][..0] == [];
    assert ActAll(cfg, h0, run[..1]) == h1;
    assert ActAll(cfg, h0, run[..2]) == h2;
    assert ActAll(cfg, h0, run[..3]) == h3;
    assert ActAll(cfg, h0, run[..4]) == h4;
    assert ActAll(cfg, h0, run[..5]) == h5;
    assert h4.breaker == Snapshot(HalfOpen, 1, Some(0));
  }
}
