/** What every plan guarantees, for any stages and routing that meet their contracts, and for the
    engine's own (packages/playback-engine/src/plan.ts; the laws of docs/PLAYBACK.md section 10). */
module PlanProperties {
  import opened Common
  import opened PlaybackTypes
  import opened Stages
  import opened Plan
  import opened Av1Gate
  import Ladder
  import Hardware

  // ---------------------------------------------------------------- aggregation

  lemma {:induction false} CollectedMembers(stages: seq<StageResult>, r: Reason)
    ensures r in Collected(stages) <==> exists s :: s in stages && r in s.reasons
  {
    if stages != [] {
      CollectedMembers(stages[1..], r);
      assert stages == [stages[0]] + stages[1..];
    }
  }

  lemma {:induction false} MaxVerdictBounds(stages: seq<StageResult>)
    ensures forall s :: s in stages ==> Severity(s.verdict) <= Severity(MaxVerdict(stages))
    ensures MaxVerdict(stages).DirectPlayVerdict? || exists s :: s in stages && s.verdict == MaxVerdict(stages)
  {
    if stages != [] {
      MaxVerdictBounds(stages[1..]);
      assert stages == [stages[0]] + stages[1..];
    }
  }

  lemma {:induction false} AppendStage(stages: seq<StageResult>, s: StageResult)
    ensures Collected(stages + [s]) == Collected(stages) + s.reasons
    ensures Severity(MaxVerdict(stages + [s])) == Max(Severity(MaxVerdict(stages)), Severity(s.verdict))
  {
    if stages == [] {
      assert stages + [s] == [s];
      assert Collected([s]) == s.reasons + Collected([]);
    } else {
      assert (stages + [s])[1..] == stages[1..] + [s];
      AppendStage(stages[1..], s);
    }
  }

  predicate AllSound(stages: seq<StageResult>) {
    forall s :: s in stages ==> Sound(s)
  }

  /** A set of sound stages passes exactly when no blocking reason fired anywhere. */
  lemma AggregateIsSound(stages: seq<StageResult>)
    requires AllSound(stages)
    ensures MaxVerdict(stages).DirectPlayVerdict? <==> !AnyBlocking(Collected(stages))
  {
    MaxVerdictBounds(stages);
    if AnyBlocking(Collected(stages)) {
      var r :| r in Collected(stages) && Blocking(r.code);
      CollectedMembers(stages, r);
      var s :| s in stages && r in s.reasons;
      assert Sound(s) && Severity(s.verdict) > 0;
    } else if !MaxVerdict(stages).DirectPlayVerdict? {
      var s :| s in stages && s.verdict == MaxVerdict(stages);
      assert Sound(s);
      var r :| r in s.reasons && Blocking(r.code);
      CollectedMembers(stages, r);
    }
  }

  // ---------------------------------------------------------------- the one-pass fixpoint

  /** `s` is what the open-GOP stage says about the container that a plan including `s` ends in. */
  predicate Consistent(input: PlanInput, ev: Evaluation, s: StageResult) {
    var container := DecisionToContainer(ResolveDecision(ev.Base() + [s], input.mode), input.device);
    s == EvaluateOpenGop(input.media, input.selection.video, ev.videoWouldTranscode, Segmented(container))
  }

  lemma PassChangesNothing(stages: seq<StageResult>, mode: Mode)
    ensures ResolveDecision(stages + [PASS], mode) == ResolveDecision(stages, mode)
  {
    AppendStage(stages, PASS);
    assert Collected(stages) + [] == Collected(stages);
  }

  lemma TranscodeStageDecides(stages: seq<StageResult>, s: StageResult, mode: Mode)
    requires s.verdict.TranscodeVerdict?
    ensures ResolveDecision(stages + [s], mode).Transcode?
  {
    AppendStage(stages, s);
  }

  /** Evaluating the open-GOP stage once, against the provisional container, is exact: against the
      final container it says the same, whatever the other stages are. An escalation always ends in
      a segmented container. Any other consistent answer is a needless transcode, so the engine's is
      the least severe one. */
  lemma OpenGopIsExactInOnePass(p: Pipeline, input: PlanInput)
    ensures var ev := Evaluate(p, input);
            Consistent(input, ev, ev.openGop)
    ensures var ev := Evaluate(p, input);
            !ev.openGop.verdict.DirectPlayVerdict?
            ==> PlanOf(p, input).decision.Transcode? && Segmented(PlanOf(p, input).container)
    ensures var ev := Evaluate(p, input);
            forall s :: Consistent(input, ev, s) ==> Severity(ev.openGop.verdict) <= Severity(s.verdict)
    ensures var ev := Evaluate(p, input);
            forall s :: Consistent(input, ev, s) && !s.verdict.TranscodeVerdict? ==> s == ev.openGop
  {
    var ev := Evaluate(p, input);
    assert ev.Base() == [ev.a, ev.b, ev.c, ev.d, ev.e.result, ev.f];
    PassChangesNothing(ev.Base(), input.mode);
    if ev.openGop != PASS {
      TranscodeStageDecides(ev.Base(), ev.openGop, input.mode);
    }
  }

  // ---------------------------------------------------------------- contracts

  predicate FiresNoAssemblyCode(r: Reason) {
    && !r.code.ToneMapRefusedByPolicy? && !r.code.TranscodeDisabledByPolicy?
    && !r.code.OpenGopLeadingPicturesStripped?
  }

  /** A reason that only the ladder, the routing and the variant cap fire. */
  predicate RoutingCode(c: ReasonCode) {
    || c.Av1RungDemoted? || c.LadderVariantCapped? || c.HwEncoderSelected?
    || c.SoftwareFallbackDecode? || c.SoftwareFallbackEncode? || c.SoftwareFallbackTierCapped?
  }

  /** Stages fire neither the assembly's reasons nor the routing's. */
  predicate OwnReasons(s: StageResult) {
    forall r :: r in s.reasons ==> FiresNoAssemblyCode(r) && !RoutingCode(r.code)
  }

  predicate NoToneMapReason(s: StageResult) {
    forall r :: r in s.reasons ==> !NeedsToneMap(r)
  }

  /** The documented contract of the stages on one input: sound verdicts; a tone-map reason comes from
      stage C, with a transcode verdict, about the selected video; and burning subtitles in is a
      transcode. */
  predicate StageContracts(input: PlanInput, ev: Evaluation) {
    && (forall s :: s in ev.All() ==> Sound(s) && OwnReasons(s))
    && (forall s :: s in ev.All() && s != ev.c ==> NoToneMapReason(s))
    && (NoToneMapReason(ev.c)
        || (ev.c.verdict.TranscodeVerdict? && SelectedVideo(input.media, input.selection.video).Some?))
    && (ev.e.strategy.BurnIn? ==> ev.e.result.verdict.TranscodeVerdict?)
    && (ev.videoWouldTranscode
        <==> || ev.b.verdict.TranscodeVerdict? || ev.c.verdict.TranscodeVerdict? || ev.f.verdict.TranscodeVerdict?
             || ev.e.strategy.BurnIn?)
  }

  /** The contract of the ladder and the routing: their reasons are routing codes. */
  predicate RoutingContracts(p: Pipeline, input: PlanInput, ev: Evaluation) {
    && (forall r :: r in BuiltLadder(p, input).reasons ==> RoutingCode(r.code))
    && (forall r :: r in RouteTaken(p, input, ev).reasons ==> RoutingCode(r.code))
  }

  predicate Contracts(p: Pipeline, input: PlanInput, ev: Evaluation) {
    StageContracts(input, ev) && RoutingContracts(p, input, ev)
  }

  // ---------------------------------------------------------------- where a plan's reasons come from

  lemma StagedReason(input: PlanInput, ev: Evaluation, r: Reason)
    requires StageContracts(input, ev)
    requires r in Collected(ev.All())
    ensures FiresNoAssemblyCode(r) && !RoutingCode(r.code)
    ensures NeedsToneMap(r) ==> ev.c.verdict.TranscodeVerdict? && SelectedVideo(input.media, input.selection.video).Some?
  {
    CollectedMembers(ev.All(), r);
    var s :| s in ev.All() && r in s.reasons;
    assert s == ev.c || NoToneMapReason(s);
  }

  function Strip(input: PlanInput): Reason {
    Reason(OpenGopLeadingPicturesStripped, input.selection.video)
  }

  predicate Stripped(input: PlanInput, ev: Evaluation) {
    StripsOpenGop(input, VideoAction(input, ev),
                  DecisionToContainer(ResolveDecision(ev.All(), input.mode), input.device))
  }

  lemma RefusedReasons(p: Pipeline, input: PlanInput, ev: Evaluation, r: Reason)
    requires Refused(p, input, ev)
    ensures r in FinalReasons(p, input, ev) <==> r in StageReasons(input, ev) || r == RefusalReason(input)
  {
    var staged := StageReasons(input, ev);
    var k := FirstToneMap(staged) + 1;
    assert staged == staged[..k] + staged[k..];
  }

  /** No stage reason is lost on the way to the plan, and nothing else gets in but the strip, the
      routing of a served plan, and the verdict of a refused or a disabled one. */
  lemma FinalReasonsAre(p: Pipeline, input: PlanInput, ev: Evaluation, r: Reason)
    requires RoutingContracts(p, input, ev)
    ensures r in Collected(ev.All()) ==> r in FinalReasons(p, input, ev)
    ensures r in FinalReasons(p, input, ev)
            ==> || r in Collected(ev.All())
                || (Stripped(input, ev) && r == Strip(input))
                || (Disabled(input, ev) && r == DISABLED_REASON)
                || (Refused(p, input, ev) && r == RefusalReason(input))
                || (Served(p, input, ev) && RoutingCode(r.code))
    ensures Stripped(input, ev) ==> Strip(input) in FinalReasons(p, input, ev)
    ensures Disabled(input, ev) ==> DISABLED_REASON in FinalReasons(p, input, ev)
    ensures Refused(p, input, ev) ==> RefusalReason(input) in FinalReasons(p, input, ev)
  {
    if Refused(p, input, ev) {
      RefusedReasons(p, input, ev, r);
      RefusedReasons(p, input, ev, RefusalReason(input));
      RefusedReasons(p, input, ev, Strip(input));
    }
  }

  predicate Fires(plan: PlaybackPlan, c: ReasonCode) {
    exists r :: r in plan.reasons && r.code == c
  }

  lemma ReasonTells(p: Pipeline, input: PlanInput, ev: Evaluation, r: Reason)
    requires Contracts(p, input, ev) && r in FinalReasons(p, input, ev)
    ensures r.code.TranscodeDisabledByPolicy? ==> Disabled(input, ev)
    ensures r.code.ToneMapRefusedByPolicy? ==> Refused(p, input, ev)
    ensures r.code.OpenGopLeadingPicturesStripped? ==> Stripped(input, ev)
    ensures NeedsToneMap(r) ==> r in StageReasons(input, ev)
  {
    FinalReasonsAre(p, input, ev, r);
    if r in Collected(ev.All()) {
      StagedReason(input, ev, r);
    }
  }

  /** Which of the assembly's own reasons a plan carries. */
  lemma AssemblyReasons(p: Pipeline, input: PlanInput, ev: Evaluation)
    requires Contracts(p, input, ev)
    ensures var plan := Assembled(p, input, ev);
            && (Fires(plan, TranscodeDisabledByPolicy) <==> Disabled(input, ev))
            && (Fires(plan, ToneMapRefusedByPolicy) <==> Refused(p, input, ev))
            && (Fires(plan, OpenGopLeadingPicturesStripped) <==> Stripped(input, ev))
            && (ToneMapRequired(plan.reasons) <==> ToneMapRequired(StageReasons(input, ev)))
  {
    var plan := Assembled(p, input, ev);
    FinalReasonsAre(p, input, ev, DISABLED_REASON);
    FinalReasonsAre(p, input, ev, RefusalReason(input));
    FinalReasonsAre(p, input, ev, Strip(input));
    forall r | r in plan.reasons
      ensures r.code.TranscodeDisabledByPolicy? ==> Disabled(input, ev)
      ensures r.code.ToneMapRefusedByPolicy? ==> Refused(p, input, ev)
      ensures r.code.OpenGopLeadingPicturesStripped? ==> Stripped(input, ev)
      ensures NeedsToneMap(r) ==> r in StageReasons(input, ev)
    {
      ReasonTells(p, input, ev, r);
    }
    forall r | r in StageReasons(input, ev) && NeedsToneMap(r)
      ensures r in plan.reasons
    {
      FinalReasonsAre(p, input, ev, r);
    }
  }

  // ---------------------------------------------------------------- the decision

  /** Nothing is transcoded under a decision that is not a transcode. */
  lemma VideoTranscodeNeedsDecision(p: Pipeline, input: PlanInput, ev: Evaluation)
    requires StageContracts(input, ev)
    ensures var plan := Assembled(p, input, ev);
            plan.video.action.TranscodeTrack? ==> plan.decision.Transcode?
  {
    MaxVerdictBounds(ev.All());
    assert ev.b in ev.All() && ev.c in ev.All() && ev.e.result in ev.All() && ev.f in ev.All() && ev.openGop in ev.All();
  }

  /** Reason completeness and direct-play bias: a plan is direct play exactly when none of its
      reasons is of the blocking class, and then there is nothing for ffmpeg to do. */
  lemma DirectPlayIffNothingBlocks(p: Pipeline, input: PlanInput, ev: Evaluation)
    requires Contracts(p, input, ev)
    ensures var plan := Assembled(p, input, ev);
            && (plan.decision.DirectPlay? <==> !AnyBlocking(plan.reasons))
            && (plan.decision.DirectPlay? ==> plan.container.Source? && plan.ffmpegArgs == [] && plan.ladder == []
                                              && !plan.video.action.TranscodeTrack? && !plan.video.openGop)
  {
    var plan := Assembled(p, input, ev);
    AggregateIsSound(ev.All());
    VideoTranscodeNeedsDecision(p, input, ev);
    forall r | r in plan.reasons && Blocking(r.code) && plan.decision.DirectPlay?
      ensures r in Collected(ev.All())
    {
      FinalReasonsAre(p, input, ev, r);
    }
    if !plan.decision.DirectPlay? {
      var r :| r in Collected(ev.All()) && Blocking(r.code);
      FinalReasonsAre(p, input, ev, r);
    }
  }

  /** The decision is the worst verdict of any stage, or remux for a download that only changes the
      container. */
  lemma TranscodeIffAStageSaysSo(p: Pipeline, input: PlanInput, ev: Evaluation)
    ensures Assembled(p, input, ev).decision.Transcode? <==> exists s :: s in ev.All() && s.verdict.TranscodeVerdict?
  {
    MaxVerdictBounds(ev.All());
  }

  /** What the media is sent in: the source file as it is exactly when nothing blocks, mp4 exactly for a
      remux, and for a stream or a transcode fragmented mp4 exactly on a device that reads it and
      transport stream segments exactly on one that does not. */
  lemma ContainerIff(p: Pipeline, input: PlanInput)
    requires Contracts(p, input, Evaluate(p, input))
    ensures var plan := PlanOf(p, input);
            var segmented := plan.decision == DirectStream || plan.decision == Transcode;
            && (plan.container == Source <==> plan.decision == DirectPlay)
            && (plan.container == Source <==> !AnyBlocking(plan.reasons))
            && (plan.container == Mp4 <==> plan.decision == Remux)
            && (plan.container == Fmp4Hls <==> segmented && input.device.supportsFmp4)
            && (plan.container == TsHls <==> segmented && !input.device.supportsFmp4)
  {
    DirectPlayIffNothingBlocks(p, input, Evaluate(p, input));
  }

  /** Only the container stage asks for direct stream, and its one blocking reason is the container. */
  predicate OnlyContainerStreams(ev: Evaluation) {
    && (forall s :: s in ev.Base() && s != ev.a ==> !s.verdict.DirectStreamVerdict?)
    && (forall r :: r in ev.a.reasons && Blocking(r.code) ==> r.code.ContainerNotDirectPlayable?)
  }

  lemma StreamedOnlyForContainer(ev: Evaluation, stages: seq<StageResult>)
    requires AllSound(stages) && OnlyContainerStreams(ev)
    requires forall s :: s in stages ==> s in ev.Base()
    ensures MaxVerdict(stages).DirectStreamVerdict? ==> ContainerOnlyChange(stages)
  {
    if MaxVerdict(stages).DirectStreamVerdict? {
      MaxVerdictBounds(stages);
      AggregateIsSound(stages);
      forall r | r in Collected(stages) && Blocking(r.code)
        ensures r.code.ContainerNotDirectPlayable?
      {
        CollectedMembers(stages, r);
        var s :| s in stages && r in s.reasons;
        assert Sound(s) && Severity(s.verdict) <= 1;
        assert s == ev.a;
      }
    }
  }

  /** A download is never served as a stream and never costs more than the same plan streamed: what
      streaming repackages, the download remuxes. */
  lemma DownloadRemuxesWhatStreamingRepackages(p: Pipeline, input: PlanInput)
    requires AllSound(Evaluate(p, input).Base()) && OnlyContainerStreams(Evaluate(p, input))
    ensures var down, live := PlanOf(p, input.(mode := Download)), PlanOf(p, input.(mode := Stream));
            && !down.decision.DirectStream? && !live.decision.Remux?
            && (live.decision.DirectPlay? <==> down.decision.DirectPlay?)
            && (live.decision.DirectStream? ==> down.decision.Remux?)
            && (down.decision.Transcode? ==> live.decision.Transcode?)
  {
    var down, live := Evaluate(p, input.(mode := Download)), Evaluate(p, input.(mode := Stream));
    var base := Evaluate(p, input).Base();
    assert down.Base() == base && live.Base() == base;
    StreamedOnlyForContainer(Evaluate(p, input), base);
    OpenGopLeavesOrTranscodes(p, input.(mode := Download));
    OpenGopLeavesOrTranscodes(p, input.(mode := Stream));
    assert !ResolveDecision(base, Download).DirectStream?;
  }

  lemma OpenGopLeavesOrTranscodes(p: Pipeline, input: PlanInput)
    ensures var ev := Evaluate(p, input);
            && Assembled(p, input, ev).decision == PlanOf(p, input).decision
            && if ev.openGop == PASS then PlanOf(p, input).decision == ResolveDecision(ev.Base(), input.mode)
               else && PlanOf(p, input).decision.Transcode? && !ResolveDecision(ev.Base(), input.mode).DirectPlay?
                    && !ResolveDecision(ev.Base(), input.mode).Remux?
  {
    var ev := Evaluate(p, input);
    assert ev.Base() == [ev.a, ev.b, ev.c, ev.d, ev.e.result, ev.f];
    PassChangesNothing(ev.Base(), input.mode);
    if ev.openGop != PASS {
      TranscodeStageDecides(ev.Base(), ev.openGop, input.mode);
    }
  }

  // ---------------------------------------------------------------- refused and disabled plans

  predicate NothingSelected(video: PlanVideo) {
    video.targetCodec.None? && video.encoder.None? && video.toneMap.None?
  }

  predicate FirstToneMapAt(reasons: seq<Reason>, k: nat) {
    k < |reasons| && NeedsToneMap(reasons[k]) && forall i :: 0 <= i < k ==> !NeedsToneMap(reasons[i])
  }

  /** `reasons` is `staged` with the refusal inserted immediately after its first tone-map reason. */
  ghost predicate RefusalSpliced(reasons: seq<Reason>, staged: seq<Reason>, refusal: Reason) {
    exists k: nat :: && FirstToneMapAt(reasons, k) && k + 1 < |reasons| && reasons[k + 1] == refusal
                     && reasons[..k + 1] + reasons[k + 2..] == staged
  }

  lemma SpliceAt(staged: seq<Reason>, refusal: Reason, k: nat)
    requires FirstToneMapAt(staged, k)
    ensures RefusalSpliced(staged[..k + 1] + [refusal] + staged[k + 1..], staged, refusal)
  {
    var reasons := staged[..k + 1] + [refusal] + staged[k + 1..];
    assert FirstToneMapAt(reasons, k) && reasons[k + 1] == refusal;
    assert reasons[..k + 1] + reasons[k + 2..] == staged;
  }

  /** A tone-map refusal is an empty transcode. Its reasons are exactly the stages' own, in order,
      with the refusal immediately after the first tone-map reason: no routing or demotion. */
  lemma RefusedShape(p: Pipeline, input: PlanInput, ev: Evaluation)
    requires Contracts(p, input, ev)
    ensures var plan := Assembled(p, input, ev);
            Fires(plan, ToneMapRefusedByPolicy)
            ==> && plan.decision.Transcode? && plan.ladder == [] && plan.ffmpegArgs == [] && NothingSelected(plan.video)
                && RefusalSpliced(plan.reasons, Collected(ev.All()), RefusalReason(input))
                && !Fires(plan, TranscodeDisabledByPolicy)
  {
    AssemblyReasons(p, input, ev);
    VideoTranscodeNeedsDecision(p, input, ev);
    if Refused(p, input, ev) {
      var staged := StageReasons(input, ev);
      assert Collected(ev.All()) + [] == Collected(ev.All());
      SpliceAt(staged, RefusalReason(input), FirstToneMap(staged));
    }
  }

  /** A transcode that policy disallows is empty in the same way: its verdict is the last reason, all
      the others are the stages' own in order, and no audio target is promised. */
  lemma DisabledShape(p: Pipeline, input: PlanInput, ev: Evaluation)
    requires Contracts(p, input, ev)
    ensures var plan := Assembled(p, input, ev);
            && (Fires(plan, TranscodeDisabledByPolicy) <==> plan.decision.Transcode? && !input.policy.allowTranscode)
            && (Fires(plan, TranscodeDisabledByPolicy)
                ==> && plan.ladder == [] && plan.ffmpegArgs == [] && NothingSelected(plan.video)
                    && plan.audio.target.None?
                    && plan.reasons == StageReasons(input, ev) + [DISABLED_REASON])
  {
    AssemblyReasons(p, input, ev);
  }

  /** A plan that needs a tone-map is never served without one: it transcodes the video, and exactly
      one of three things holds: a method was resolved, the plan is refused, or it is disabled. */
  lemma ToneMapIsNeverSkipped(p: Pipeline, input: PlanInput, ev: Evaluation)
    requires Contracts(p, input, ev)
    ensures var plan := Assembled(p, input, ev);
            ToneMapRequired(plan.reasons)
            ==> && plan.decision.Transcode? && plan.video.action.TranscodeTrack?
                && (if plan.video.toneMap.Some?
                    then !Fires(plan, ToneMapRefusedByPolicy) && !Fires(plan, TranscodeDisabledByPolicy)
                    else Fires(plan, ToneMapRefusedByPolicy) != Fires(plan, TranscodeDisabledByPolicy))
  {
    AssemblyReasons(p, input, ev);
    VideoTranscodeNeedsDecision(p, input, ev);
    ToneMapTranscodes(input, ev);
  }

  lemma ToneMapTranscodes(input: PlanInput, ev: Evaluation)
    requires StageContracts(input, ev)
    ensures ToneMapRequired(StageReasons(input, ev)) ==> VideoAction(input, ev).TranscodeTrack?
  {
    if ToneMapRequired(StageReasons(input, ev)) {
      var r :| r in StageReasons(input, ev) && NeedsToneMap(r);
      StagedReason(input, ev, r);
    }
  }

  /** The open-GOP strip is reported exactly when the arguments perform it, and only on an hevc copy
      that is repackaged. */
  lemma StripIsReportedIffPerformed(p: Pipeline, input: PlanInput, ev: Evaluation)
    requires Contracts(p, input, ev)
    ensures var plan := Assembled(p, input, ev);
            && (Fires(plan, OpenGopLeadingPicturesStripped) <==> plan.video.openGop)
            && (plan.video.openGop
                ==> && plan.video.action.Copy? && Segmented(plan.container)
                    && SelectedVideo(input.media, input.selection.video).Some?
                    && SelectedVideo(input.media, input.selection.video).value.codec.Hevc?)
  {
    AssemblyReasons(p, input, ev);
  }

  /** The target codec is the codec of the first advertised rung of highest bitrate, and the tier-0
      cap does not change it: it is also the codec of the routed ladder's. */
  lemma TargetCodecIsTheTopRungs(p: Pipeline, input: PlanInput, ev: Evaluation)
    ensures var plan := Assembled(p, input, ev);
            && (plan.ladder == [] ==> plan.video.targetCodec.None?)
            && (plan.ladder != []
                ==> && RouteTaken(p, input, ev).ladder != []
                    && plan.video.targetCodec == Some(TopRung(RouteTaken(p, input, ev).ladder).value.codec)
                    && exists k: nat :: && Ladder.IsFirstMax(plan.ladder, Ladder.Bitrate, k)
                                        && plan.video.targetCodec == Some(plan.ladder[k].codec))
  {
    var plan, routed := Assembled(p, input, ev), RouteTaken(p, input, ev).ladder;
    if plan.ladder != [] {
      assert Served(p, input, ev);
      if routed != [] {
        Ladder.CapKeepsTopAndFloor(routed, input.policy.tier);
      }
      var k := Ladder.TopIndex(plan.ladder);
      assert Ladder.IsFirstMax(plan.ladder, Ladder.Bitrate, k);
    }
  }

  // ---------------------------------------------------------------- the engine's own stages

  function LoombrePipeline(
      video: (MediaInfo, DeviceProfile, Option<int>) -> StageResult,
      args: (PlanInput, PlanContainer, PlanVideo, PlanAudio, PlanSubtitle, Option<Rung>) -> seq<string>): Pipeline
  {
    Pipeline(EvaluateContainer, video, EvaluateHdr, EvaluateAudio, EvaluateSubtitle, EvaluateBitrate,
             Ladder.BuildLadder, Hardware.RouteHardware, args)
  }

  /** What is assumed of stage B, whose per-axis checks are not modelled. */
  predicate VideoStageContract(s: StageResult) {
    Sound(s) && !s.verdict.DirectStreamVerdict? && OwnReasons(s) && NoToneMapReason(s)
  }

  lemma ContainerMeetsContract(media: MediaInfo, device: DeviceProfile)
    ensures var a := EvaluateContainer(media, device);
            OwnReasons(a) && NoToneMapReason(a)
            && forall r :: r in a.reasons && Blocking(r.code) ==> r.code.ContainerNotDirectPlayable?
  {
  }

  lemma HdrMeetsContract(media: MediaInfo, device: DeviceProfile, selection: Option<int>, flag: bool)
    ensures var c := EvaluateHdr(media, device, selection, flag);
            OwnReasons(c) && !c.verdict.DirectStreamVerdict?
            && (NoToneMapReason(c) || (c.verdict.TranscodeVerdict? && SelectedVideo(media, selection).Some?))
  {
  }

  lemma BlockersMeetContract(a: AudioStream, entry: Option<AudioEntry>, r: Reason)
    requires r in AudioBlockers(a, entry)
    ensures r.code in {AudioCodecUnsupported, AudioChannelsExceedDevice, AudioPassthroughUnsupported}
  {
  }

  lemma AudioMeetsContract(media: MediaInfo, device: DeviceProfile, selection: Option<int>)
    ensures var d := EvaluateAudio(media, device, selection);
            OwnReasons(d) && NoToneMapReason(d) && !d.verdict.DirectStreamVerdict?
  {
    var d := EvaluateAudio(media, device, selection);
    forall r | r in d.reasons
      ensures FiresNoAssemblyCode(r) && !RoutingCode(r.code) && !NeedsToneMap(r)
    {
      var a := FindAudio(media.audio, selection.value).value;
      if r in AudioBlockers(a, FindAudioEntry(device.audio, a.codec)) {
        BlockersMeetContract(a, FindAudioEntry(device.audio, a.codec), r);
      }
    }
  }

  lemma SubtitleMeetsContract(media: MediaInfo, device: DeviceProfile, policy: ServerPolicy, selection: Option<int>,
                              flag: bool, verdict: Verdict)
    ensures var e := EvaluateSubtitle(media, device, policy, selection, flag, verdict).result;
            OwnReasons(e) && NoToneMapReason(e) && !e.verdict.DirectStreamVerdict?
  {
    SubtitleReasonsAre(media, device, policy, selection, flag, verdict);
    SubtitleReasonsAreOwn(EvaluateSubtitle(media, device, policy, selection, flag, verdict).result);
  }

  lemma SubtitleReasonsAreOwn(s: StageResult)
    requires SubtitleReasonsOnly(s)
    ensures OwnReasons(s) && NoToneMapReason(s)
  {
    forall r | r in s.reasons
      ensures FiresNoAssemblyCode(r) && !RoutingCode(r.code) && !NeedsToneMap(r)
    {
      assert r == s.reasons[0] || r == s.reasons[1];
    }
  }

  /** At most two reasons, the second the transcode that burning in costs. */
  predicate SubtitleReasonsOnly(s: StageResult) {
    && !s.verdict.DirectStreamVerdict? && |s.reasons| <= 2
    && (|s.reasons| == 2 ==> s.reasons[1].code.VideoTranscodeForSubtitleBurnIn?)
    && (s.reasons != []
        ==> var c := s.reasons[0].code;
            c.SubtitleCodecUnknown? || c.SubtitleBurnInForStyling? || c.SubtitleStylingLost? || c.SubtitleFormatRequiresBurnIn?)
  }

  lemma SubtitleReasonsAre(media: MediaInfo, device: DeviceProfile, policy: ServerPolicy, selection: Option<int>,
                           flag: bool, verdict: Verdict)
    ensures SubtitleReasonsOnly(EvaluateSubtitle(media, device, policy, selection, flag, verdict).result)
  {
  }

  lemma BitrateMeetsContract(media: MediaInfo, device: DeviceProfile, network: Network, selection: Option<int>, flag: bool)
    ensures var f := EvaluateBitrate(media, device, network, selection, flag);
            OwnReasons(f) && NoToneMapReason(f) && !f.verdict.DirectStreamVerdict?
  {
  }

  lemma OpenGopMeetsContract(media: MediaInfo, selection: Option<int>, would: bool, segmented: bool)
    ensures var g := EvaluateOpenGop(media, selection, would, segmented);
            OwnReasons(g) && NoToneMapReason(g)
  {
  }

  lemma LadderReasonsAreDemotions(media: MediaInfo, device: DeviceProfile, network: Network, policy: ServerPolicy,
                                  caps: seq<Capability>, selection: Option<int>)
    ensures forall r :: r in Ladder.BuildLadder(media, device, network, policy, caps, selection).reasons
                        ==> r.code.Av1RungDemoted?
  {
  }

  lemma RoutingReasonsAreRoutingCodes(media: MediaInfo, device: DeviceProfile, selection: Option<int>,
                                      caps: seq<Capability>, policy: ServerPolicy, ladder: seq<Rung>, toneMap: bool)
    ensures forall r :: r in Hardware.RouteHardware(media, device, selection, caps, policy, ladder, toneMap).reasons
                        ==> RoutingCode(r.code)
  {
  }

  /** A stage other than the container's and the HDR one, as the assembly sees it. */
  predicate PlainStage(s: StageResult) {
    Sound(s) && OwnReasons(s) && NoToneMapReason(s) && !s.verdict.DirectStreamVerdict?
  }

  lemma StagesTogether(input: PlanInput, ev: Evaluation)
    requires Sound(ev.a) && OwnReasons(ev.a) && NoToneMapReason(ev.a)
    requires forall r :: r in ev.a.reasons && Blocking(r.code) ==> r.code.ContainerNotDirectPlayable?
    requires PlainStage(ev.b) && PlainStage(ev.d) && PlainStage(ev.e.result) && PlainStage(ev.f)
    requires Sound(ev.openGop) && OwnReasons(ev.openGop) && NoToneMapReason(ev.openGop)
    requires Sound(ev.c) && OwnReasons(ev.c) && !ev.c.verdict.DirectStreamVerdict?
    requires NoToneMapReason(ev.c)
             || (ev.c.verdict.TranscodeVerdict? && SelectedVideo(input.media, input.selection.video).Some?)
    requires ev.e.strategy.BurnIn? ==> ev.e.result.verdict.TranscodeVerdict?
    requires ev.videoWouldTranscode
        <==> || ev.b.verdict.TranscodeVerdict? || ev.c.verdict.TranscodeVerdict? || ev.f.verdict.TranscodeVerdict?
             || ev.e.strategy.BurnIn?
    ensures StageContracts(input, ev) && OnlyContainerStreams(ev)
  {
    assert ev.All() == [ev.a, ev.b, ev.c, ev.d, ev.e.result, ev.f, ev.openGop];
    assert ev.Base() == [ev.a, ev.b, ev.c, ev.d, ev.e.result, ev.f];
  }

  /** The engine's own stages, ladder and routing meet the contracts that the laws above rest on. */
  lemma EngineMeetsContracts(p: Pipeline, input: PlanInput)
    requires p == LoombrePipeline(p.video, p.args)
    requires VideoStageContract(p.video(input.media, input.device, input.selection.video))
    ensures Contracts(p, input, Evaluate(p, input)) && OnlyContainerStreams(Evaluate(p, input))
  {
    var ev, sel := Evaluate(p, input), input.selection;
    var playable := ev.a.verdict.DirectPlayVerdict?;
    ContainerMeetsContract(input.media, input.device);
    HdrMeetsContract(input.media, input.device, sel.video, playable);
    AudioMeetsContract(input.media, input.device, sel.audio);
    SubtitleMeetsContract(input.media, input.device, input.policy, sel.subtitle, playable, ev.b.verdict);
    BitrateMeetsContract(input.media, input.device, input.network, sel.video,
                         ev.b.verdict.TranscodeVerdict? || ev.c.verdict.TranscodeVerdict? || ev.e.strategy.BurnIn?);
    var provisional := DecisionToContainer(
      ResolveDecision([ev.a, ev.b, ev.c, ev.d, ev.e.result, ev.f], input.mode), input.device);
    OpenGopMeetsContract(input.media, sel.video, ev.videoWouldTranscode, Segmented(provisional));
    StagesTogether(input, ev);
    EngineRoutingMeetsContracts(p, input, ev);
  }

  lemma EngineRoutingMeetsContracts(p: Pipeline, input: PlanInput, ev: Evaluation)
    requires p == LoombrePipeline(p.video, p.args)
    ensures RoutingContracts(p, input, ev)
  {
    LadderReasonsAreDemotions(input.media, input.device, input.network, input.policy, input.caps, input.selection.video);
    RoutingReasonsAreRoutingCodes(input.media, input.device, input.selection.video, input.caps, input.policy,
                                  BuiltLadder(p, input).ladder, ToneMapRequired(StageReasons(input, ev)));
  }

  // ---------------------------------------------------------------- the engine's laws

  /** HDR the device cannot show is tone-mapped, refused or disabled, never sent as it is; and the
      engine tone-maps nothing else. */
  lemma HdrIsNeverSentUnshown(p: Pipeline, input: PlanInput)
    requires p == LoombrePipeline(p.video, p.args)
    requires VideoStageContract(p.video(input.media, input.device, input.selection.video))
    ensures var plan, stream := PlanOf(p, input), SelectedVideo(input.media, input.selection.video);
            if stream.Some? && !ShowsHdr(stream.value, input.device)
            then && plan.video.action.TranscodeTrack?
                 && (plan.video.toneMap.None? <==> Fires(plan, ToneMapRefusedByPolicy) || Fires(plan, TranscodeDisabledByPolicy))
            else plan.video.toneMap.None? && !Fires(plan, ToneMapRefusedByPolicy)
  {
    var ev, plan := Evaluate(p, input), PlanOf(p, input);
    EngineMeetsContracts(p, input);
    ToneMapRequiredIffHdrUnshown(p, input);
    ToneMapFollowsNeed(p, input, ev);
    ToneMapIsNeverSkipped(p, input, ev);
  }

  lemma ToneMapRequiredIffHdrUnshown(p: Pipeline, input: PlanInput)
    requires p == LoombrePipeline(p.video, p.args) && Contracts(p, input, Evaluate(p, input))
    ensures var stream := SelectedVideo(input.media, input.selection.video);
            ToneMapRequired(PlanOf(p, input).reasons) <==> stream.Some? && !ShowsHdr(stream.value, input.device)
  {
    var ev := Evaluate(p, input);
    AssemblyReasons(p, input, ev);
    ToneMapReasonsAreStageCs(input, ev);
  }

  lemma ToneMapReasonsAreStageCs(input: PlanInput, ev: Evaluation)
    requires StageContracts(input, ev)
    ensures ToneMapRequired(StageReasons(input, ev)) <==> exists r :: r in ev.c.reasons && NeedsToneMap(r)
  {
    assert ev.c in ev.All();
    forall r | NeedsToneMap(r)
      ensures r in StageReasons(input, ev) <==> r in ev.c.reasons
    {
      CollectedMembers(ev.All(), r);
    }
  }

  lemma ToneMapFollowsNeed(p: Pipeline, input: PlanInput, ev: Evaluation)
    requires p == LoombrePipeline(p.video, p.args) && Contracts(p, input, ev)
    ensures var plan := Assembled(p, input, ev);
            !ToneMapRequired(plan.reasons) ==> plan.video.toneMap.None? && !Fires(plan, ToneMapRefusedByPolicy)
  {
    AssemblyReasons(p, input, ev);
    Hardware.NoMethodOnlyOnForbiddenSoftwareRoute(
      input.media, input.device, input.selection.video, input.caps, input.policy, BuiltLadder(p, input).ladder,
      ToneMapRequired(StageReasons(input, ev)));
  }

  /** `r` serves row `t` of the table: its height and audio, its bitrate or a lower one, and its codec
      or what the device's demotion makes of it. */
  predicate ServesTableRow(r: Rung, t: Rung, target: LadderCodec) {
    && r.heightPx == t.heightPx && r.audioBitrateBps == t.audioBitrateBps && r.videoBitrateBps <= t.videoBitrateBps
    && (r.codec == t.codec || (IsAv1(t) && r.codec == target))
  }

  lemma RoutedRungsComeFromTheLadder(media: MediaInfo, device: DeviceProfile, selection: Option<int>,
                                     caps: seq<Capability>, policy: ServerPolicy, ladder: seq<Rung>, toneMap: bool, r: Rung)
    requires r in Hardware.RouteHardware(media, device, selection, caps, policy, ladder, toneMap).ladder
    ensures exists b :: b in ladder && (r == b || r == Rewritten(b, DemotionTarget(device)))
  {
    var stream := SelectedVideo(media, selection);
    var routed := Hardware.SoftwareLadder(device, caps, policy, ladder);
    Hardware.TierCapMembers(routed, policy.tier, if stream.Some? then Some(stream.value.height) else None);
    QualityPointsAreKept(ladder, DemotionTarget(device));
  }

  lemma FinalRungsAreRouted(p: Pipeline, input: PlanInput, ev: Evaluation, r: Rung)
    requires r in Assembled(p, input, ev).ladder
    ensures Served(p, input, ev) && r in RouteTaken(p, input, ev).ladder
    ensures Assembled(p, input, ev).video.encoder == Some(RouteTaken(p, input, ev).encoder)
  {
    var routed := RouteTaken(p, input, ev).ladder;
    if routed != [] {
      Ladder.CapKeepsTopAndFloor(routed, input.policy.tier);
    }
  }

  predicate CanEncode(caps: seq<Capability>, encoder: HardwareBackend, codec: LadderCodec) {
    exists c :: c in caps && c.backend == encoder && codec in c.encode
  }

  /** Every advertised rung serves a row of the operator's table, and the encoder the plan names can
      encode it: a hardware encoder was verified for its codec, and the software encoder is handed
      av1 only above tier 0 and only where it was verified. */
  lemma AdvertisedRungsAreServable(p: Pipeline, input: PlanInput, ev: Evaluation, r: Rung)
    requires p == LoombrePipeline(p.video, p.args)
    requires r in Assembled(p, input, ev).ladder
    ensures exists t :: t in Ladder.Table(input.device, input.policy, input.caps)
                     && ServesTableRow(r, t, DemotionTarget(input.device))
    ensures var encoder := Assembled(p, input, ev).video.encoder;
            && encoder.Some?
            && (if encoder.value.Software? then IsAv1(r) ==> !input.policy.tier.T0? && CanEncode(input.caps, Software, ToAv1)
                else CanEncode(input.caps, encoder.value, r.codec))
    ensures IsAv1(r) ==> DeviceAdmitsAv1(input.device) && !EncodeEligibility(input.caps, input.policy.tier).Ineligible?
  {
    var sel, built := input.selection.video, BuiltLadder(p, input).ladder;
    var toneMap := ToneMapRequired(StageReasons(input, ev));
    FinalRungsAreRouted(p, input, ev, r);
    Hardware.RoutedRungsAreEncodable(input.media, input.device, sel, input.caps, input.policy, built, toneMap, r);
    RoutedRungsComeFromTheLadder(input.media, input.device, sel, input.caps, input.policy, built, toneMap, r);
    var b :| b in built && (r == b || r == Rewritten(b, DemotionTarget(input.device)));
    Ladder.LadderWithinLimits(input.media, input.device, input.network, input.policy, input.caps, sel, b);
    var t :| t in Ladder.Table(input.device, input.policy, input.caps) && Ladder.ServesRow(b, t);
    assert ServesTableRow(r, t, DemotionTarget(input.device));
    if IsAv1(r) {
      Ladder.LadderAv1IsAdmissible(input.media, input.device, input.network, input.policy, input.caps, sel, b);
    }
  }

  /** An av1 rung is advertised only in fragmented mp4. */
  lemma Av1IsSentInFmp4(p: Pipeline, input: PlanInput, r: Rung)
    requires p == LoombrePipeline(p.video, p.args) && Contracts(p, input, Evaluate(p, input))
    requires r in PlanOf(p, input).ladder && r.codec == ToAv1
    ensures PlanOf(p, input).container == Fmp4Hls
  {
    var ev := Evaluate(p, input);
    AdvertisedRungsAreServable(p, input, ev, r);
    FinalRungsAreRouted(p, input, ev, r);
    VideoTranscodeNeedsDecision(p, input, ev);
    ContainerIff(p, input);
  }

  predicate PlansAv1(plan: PlaybackPlan) {
    plan.video.targetCodec == Some(ToAv1) || exists r :: r in plan.ladder && IsAv1(r)
  }

  /** Laws 5 and 6: at tier 0 no plan reaches av1 unless a hardware backend was verified to encode it,
      and none on the software encoder even then. */
  lemma Tier0Av1NeedsHardware(p: Pipeline, input: PlanInput, ev: Evaluation)
    requires p == LoombrePipeline(p.video, p.args)
    requires input.policy.tier.T0?
    requires !HwAv1EncodeVerified(input.caps) || Assembled(p, input, ev).video.encoder == Some(Software)
    ensures !PlansAv1(Assembled(p, input, ev))
  {
    var plan := Assembled(p, input, ev);
    TargetCodecIsTheTopRungs(p, input, ev);
    if plan.video.targetCodec == Some(ToAv1) {
      var k: nat :| Ladder.IsFirstMax(plan.ladder, Ladder.Bitrate, k) && plan.video.targetCodec == Some(plan.ladder[k].codec);
      assert plan.ladder[k] in plan.ladder && IsAv1(plan.ladder[k]);
    }
    if exists r :: r in plan.ladder && IsAv1(r) {
      var r :| r in plan.ladder && IsAv1(r);
      AdvertisedRungsAreServable(p, input, ev, r);
    }
  }

  /** Every plan that is to be served comes with something to run. The argument list is empty exactly
      for direct play, a refusal, a disabled transcode, and a video transcode for which the operator
      configured no rungs at all. */
  lemma NothingToRunExactlyWhen(p: Pipeline, input: PlanInput, ev: Evaluation)
    requires p == LoombrePipeline(p.video, p.args) && Contracts(p, input, ev)
    requires forall c, v, a, s, r :: p.args(input, c, v, a, s, r) != []
    ensures var plan := Assembled(p, input, ev);
            plan.ffmpegArgs == []
            <==> || plan.decision.DirectPlay?
                 || Fires(plan, ToneMapRefusedByPolicy) || Fires(plan, TranscodeDisabledByPolicy)
                 || (plan.video.action.TranscodeTrack? && input.policy.ladderRungs == [])
  {
    AssemblyReasons(p, input, ev);
    var sel, built := input.selection.video, BuiltLadder(p, input).ladder;
    Ladder.LadderEmptyIffTableEmpty(input.media, input.device, input.network, input.policy, input.caps, sel);
    EngineLadderSurvives(p, input, ev);
  }

  lemma EngineLadderSurvives(p: Pipeline, input: PlanInput, ev: Evaluation)
    requires p == LoombrePipeline(p.video, p.args)
    ensures Served(p, input, ev) ==> (FinalLadder(p, input, ev).ladder == [] <==> BuiltLadder(p, input).ladder == [])
  {
    var sel, built, routed := input.selection.video, BuiltLadder(p, input).ladder, RouteTaken(p, input, ev).ladder;
    var toneMap := ToneMapRequired(StageReasons(input, ev));
    if built != [] {
      Hardware.RoutingKeepsARung(input.media, input.device, sel, input.caps, input.policy, built, toneMap);
      Ladder.CapKeepsTopAndFloor(routed, input.policy.tier);
    } else if routed != [] {
      RoutedRungsComeFromTheLadder(input.media, input.device, sel, input.caps, input.policy, built, toneMap, routed[0]);
    }
  }
}
