/** What a plan holds, field by field, for any stages, ladder and routing
    (packages/playback-engine/src/plan.ts). `PlanProperties` proves what follows from it. */
module PlanLaws {
  import opened Common
  import opened PlaybackTypes
  import opened Stages
  import opened Plan
  import opened PlanProperties
  import Ladder

  // ---------------------------------------------------------------- the stages' reasons

  predicate ReportsToneMap(s: StageResult) {
    exists r :: r in s.reasons && NeedsToneMap(r)
  }

  /** Some stage reported HDR that has to be mapped. */
  predicate StagesNeedToneMap(stages: seq<StageResult>) {
    exists s :: s in stages && ReportsToneMap(s)
  }

  lemma NeedIsReported(input: PlanInput, ev: Evaluation)
    ensures ToneMapRequired(StageReasons(input, ev)) <==> StagesNeedToneMap(ev.All())
  {
    if ToneMapRequired(StageReasons(input, ev)) {
      var r :| r in StageReasons(input, ev) && NeedsToneMap(r);
      CollectedMembers(ev.All(), r);
      var s :| s in ev.All() && r in s.reasons;
      assert ReportsToneMap(s);
    }
    if s :| s in ev.All() && ReportsToneMap(s) {
      var r :| r in s.reasons && NeedsToneMap(r);
      CollectedMembers(ev.All(), r);
    }
  }

  /** The copy of the selected stream is repackaged and loses its leading pictures. */
  predicate Strips(input: PlanInput, plan: PlaybackPlan) {
    var stream := SelectedVideo(input.media, input.selection.video);
    && plan.video.action == Copy && (plan.container == Fmp4Hls || plan.container == TsHls)
    && stream.Some? && stream.value.openGop && stream.value.codec.Hevc?
  }

  lemma SevenStages(a: StageResult, b: StageResult, c: StageResult, d: StageResult, e: StageResult, f: StageResult, g: StageResult)
    ensures Collected([a, b, c, d, e, f] + [g])
         == a.reasons + b.reasons + c.reasons + d.reasons + e.reasons + f.reasons + g.reasons
  {
    AppendStage([a, b, c, d, e, f], g);
    AppendStage([a, b, c, d, e], f);
    AppendStage([a, b, c, d], e);
    AppendStage([a, b, c], d);
    AppendStage([a, b], c);
    AppendStage([a], b);
    assert [a, b, c, d, e, f] == [a, b, c, d, e] + [f] && [a, b, c, d, e] == [a, b, c, d] + [e];
    assert [a, b, c, d] == [a, b, c] + [d] && [a, b, c] == [a, b] + [c] && [a, b] == [a] + [b];
    assert Collected([a]) == a.reasons + Collected([]);
  }

  /** What the stages said, in their order, with the strip last. */
  function Staged(input: PlanInput, ev: Evaluation, plan: PlaybackPlan): seq<Reason> {
    ev.a.reasons + ev.b.reasons + ev.c.reasons + ev.d.reasons + ev.e.result.reasons + ev.f.reasons + ev.openGop.reasons
    + (if Strips(input, plan) then [Reason(OpenGopLeadingPicturesStripped, input.selection.video)] else [])
  }

  lemma StagedIs(p: Pipeline, input: PlanInput, ev: Evaluation, plan: PlaybackPlan)
    requires plan == Assembled(p, input, ev)
    ensures StageReasons(input, ev) == Staged(input, ev, plan)
    ensures plan.video.openGop <==> Strips(input, plan)
  {
    SevenStages(ev.a, ev.b, ev.c, ev.d, ev.e.result, ev.f, ev.openGop);
  }

  // ---------------------------------------------------------------- plans without a video transcode

  predicate IsDisabled(input: PlanInput, plan: PlaybackPlan) {
    plan.decision == Transcode && !input.policy.allowTranscode
  }

  /** Without a video transcode there is neither ladder nor encoder nor tone-map, and the reasons are the
      stages' own, with the verdict of a disabled transcode last. */
  lemma CopiedPlanIs(p: Pipeline, input: PlanInput, ev: Evaluation, plan: PlaybackPlan)
    requires plan == Assembled(p, input, ev) && plan.video.action != TranscodeTrack
    ensures plan.video == PlanVideo(plan.video.action, None, None, None, Strips(input, plan)) && plan.ladder == []
    ensures plan.reasons == Staged(input, ev, plan) + (if IsDisabled(input, plan) then [Reason(TranscodeDisabledByPolicy, None)] else [])
    ensures plan.ffmpegArgs
         == if plan.decision == DirectPlay || IsDisabled(input, plan) then []
            else p.args(input, plan.container, plan.video, plan.audio, plan.subtitle, None)
  {
    StagedIs(p, input, ev, plan);
  }

  // ---------------------------------------------------------------- plans with one

  /** A video transcode that policy disallows selects nothing. */
  lemma DisabledPlanIs(p: Pipeline, input: PlanInput, ev: Evaluation, plan: PlaybackPlan)
    requires plan == Assembled(p, input, ev) && plan.video.action == TranscodeTrack && IsDisabled(input, plan)
    ensures plan.video == PlanVideo(TranscodeTrack, None, None, None, false) && plan.ladder == [] && plan.ffmpegArgs == []
    ensures plan.reasons == Staged(input, ev, plan) + [Reason(TranscodeDisabledByPolicy, None)]
  {
    StagedIs(p, input, ev, plan);
  }

  /** The ladder that is built for the input, and where it is routed. */
  predicate IsRouted(p: Pipeline, input: PlanInput, ev: Evaluation, built: LadderResult, routing: Routing) {
    && built == p.ladder(input.media, input.device, input.network, input.policy, input.caps, input.selection.video)
    && routing == p.route(input.media, input.device, input.selection.video, input.caps, input.policy, built.ladder,
                          StagesNeedToneMap(ev.All()))
  }

  /** A video transcode that needs a tone-map for which no method was found is refused: it selects
      nothing, and the refusal names the stream and stands right behind the first tone-map reason. */
  lemma RefusedPlanIs(p: Pipeline, input: PlanInput, ev: Evaluation, plan: PlaybackPlan,
                      built: LadderResult, routing: Routing, k: nat)
    requires plan == Assembled(p, input, ev) && plan.video.action == TranscodeTrack && !IsDisabled(input, plan)
    requires IsRouted(p, input, ev, built, routing) && StagesNeedToneMap(ev.All()) && routing.toneMap == None
    requires FirstToneMapAt(Staged(input, ev, plan), k)
    ensures plan.video == PlanVideo(TranscodeTrack, None, None, None, false) && plan.ladder == [] && plan.ffmpegArgs == []
    ensures var staged, stream := Staged(input, ev, plan), SelectedVideo(input.media, input.selection.video);
            plan.reasons == staged[..k + 1]
                          + [Reason(ToneMapRefusedByPolicy, if stream.Some? then Some(stream.value.index) else None)]
                          + staged[k + 1..]
  {
    StagedIs(p, input, ev, plan);
    NeedIsReported(input, ev);
    assert FirstToneMap(Staged(input, ev, plan)) == k;
  }

  /** Any other video transcode is served: the routed ladder, capped; the routed encoder and tone-map; the
      codec of the top rung; and behind the stages' reasons those of the ladder, of the routing and of
      the cap. There is something to run exactly when there is a rung, and the top one is what it is built
      for. */
  lemma ServedPlanIs(p: Pipeline, input: PlanInput, ev: Evaluation, plan: PlaybackPlan, built: LadderResult, routing: Routing)
    requires plan == Assembled(p, input, ev) && plan.video.action == TranscodeTrack && !IsDisabled(input, plan)
    requires IsRouted(p, input, ev, built, routing) && (StagesNeedToneMap(ev.All()) ==> routing.toneMap != None)
    ensures var capped := Ladder.Capped(routing.ladder, input.policy.tier);
            var top := if capped.ladder == [] then None else Some(capped.ladder[Ladder.TopIndex(capped.ladder)]);
            && plan.ladder == capped.ladder
            && plan.reasons == Staged(input, ev, plan) + built.reasons + routing.reasons + capped.reasons
            && plan.video == PlanVideo(TranscodeTrack, if top.Some? then Some(top.value.codec) else None,
                                       Some(routing.encoder), routing.toneMap, false)
            && plan.ffmpegArgs
               == if plan.decision == DirectPlay || top == None then []
                  else p.args(input, plan.container, plan.video, plan.audio, plan.subtitle, top)
  {
    StagedIs(p, input, ev, plan);
    NeedIsReported(input, ev);
  }

  // ---------------------------------------------------------------- audio, and the remux

  /** Without a selected audio stream the plan has no audio. */
  lemma NoAudioIsPlanned(p: Pipeline, input: PlanInput, ev: Evaluation)
    requires input.selection.audio == None || FindAudio(input.media.audio, input.selection.audio.value) == None
    ensures Assembled(p, input, ev).audio == PlanAudio(NoTrack, None)
  {
  }

  /** A remux is decided exactly for a download that some stage only wants streamed, none transcoded, and
      for which the container is the one thing that blocks. */
  lemma RemuxIff(p: Pipeline, input: PlanInput, ev: Evaluation)
    ensures Assembled(p, input, ev).decision == Remux
       <==> && input.mode == Download
            && (exists s :: s in ev.All() && s.verdict == DirectStreamVerdict)
            && (forall s :: s in ev.All() ==> s.verdict != TranscodeVerdict)
            && (exists s :: s in ev.All() && AnyBlocking(s.reasons))
            && (forall s, r :: s in ev.All() && r in s.reasons && Blocking(r.code) ==> r.code == ContainerNotDirectPlayable)
  {
    MaxVerdictBounds(ev.All());
    StreamIffMax(ev.All());
    BlockingIsReported(ev.All());
    forall r: Reason
      ensures r in Collected(ev.All()) <==> exists s :: s in ev.All() && r in s.reasons
    {
      CollectedMembers(ev.All(), r);
    }
  }

  lemma StreamIffMax(stages: seq<StageResult>)
    ensures MaxVerdict(stages) == DirectStreamVerdict
       <==> && (exists s :: s in stages && s.verdict == DirectStreamVerdict)
            && (forall s :: s in stages ==> s.verdict != TranscodeVerdict)
  {
    MaxVerdictBounds(stages);
  }

  lemma BlockingIsReported(stages: seq<StageResult>)
    ensures AnyBlocking(Collected(stages)) <==> exists s :: s in stages && AnyBlocking(s.reasons)
  {
    if AnyBlocking(Collected(stages)) {
      var r :| r in Collected(stages) && Blocking(r.code);
      CollectedMembers(stages, r);
    }
    if s :| s in stages && AnyBlocking(s.reasons) {
      var r :| r in s.reasons && Blocking(r.code);
      CollectedMembers(stages, r);
    }
  }
}
