/** The playback decision (packages/playback-engine/src/plan.ts).

    `Pipeline` holds the stages, the ladder, the routing and the argument builder as functions, so
    the lemmas hold for every implementation that meets the stated contracts. `LoombrePipeline`
    fills in the engine's own functions; stage B and the argument builder stay arbitrary. */
module Plan {
  import opened Common
  import opened PlaybackTypes
  import opened Stages
  import Av1Gate
  import Ladder
  import Hardware

  datatype Pipeline = Pipeline(
    container: (MediaInfo, DeviceProfile) -> StageResult,
    video: (MediaInfo, DeviceProfile, Option<int>) -> StageResult,
    hdr: (MediaInfo, DeviceProfile, Option<int>, bool) -> StageResult,
    audio: (MediaInfo, DeviceProfile, Option<int>) -> StageResult,
    subtitle: (MediaInfo, DeviceProfile, ServerPolicy, Option<int>, bool, Verdict) -> SubtitleOutput,
    bitrate: (MediaInfo, DeviceProfile, Network, Option<int>, bool) -> StageResult,
    ladder: (MediaInfo, DeviceProfile, Network, ServerPolicy, seq<Capability>, Option<int>) -> LadderResult,
    route: (MediaInfo, DeviceProfile, Option<int>, seq<Capability>, ServerPolicy, seq<Rung>, bool) -> Routing,
    args: (PlanInput, PlanContainer, PlanVideo, PlanAudio, PlanSubtitle, Option<Rung>) -> seq<string>)

  // ---------------------------------------------------------------- aggregation

  function Severity(v: Verdict): nat {
    match v
    case DirectPlayVerdict => 0
    case DirectStreamVerdict => 1
    case TranscodeVerdict => 2
  }

  function Collected(stages: seq<StageResult>): seq<Reason> {
    if stages == [] then [] else stages[0].reasons + Collected(stages[1..])
  }

  function MaxVerdict(stages: seq<StageResult>): Verdict {
    if stages == [] then DirectPlayVerdict
    else
      var rest := MaxVerdict(stages[1..]);
      if Severity(stages[0].verdict) >= Severity(rest) then stages[0].verdict else rest
  }

  predicate ContainerOnlyChange(stages: seq<StageResult>) {
    && MaxVerdict(stages).DirectStreamVerdict?
    && AnyBlocking(Collected(stages))
    && forall r :: r in Collected(stages) && Blocking(r.code) ==> r.code.ContainerNotDirectPlayable?
  }

  function ResolveDecision(stages: seq<StageResult>, mode: Mode): Decision {
    if mode.Download? && ContainerOnlyChange(stages) then Remux
    else
      match MaxVerdict(stages)
      case DirectPlayVerdict => DirectPlay
      case DirectStreamVerdict => DirectStream
      case TranscodeVerdict => Transcode
  }

  function DecisionToContainer(d: Decision, device: DeviceProfile): PlanContainer {
    match d
    case DirectPlay => Source
    case Remux => Mp4
    case _ => if device.supportsFmp4 then Fmp4Hls else TsHls
  }

  predicate Segmented(c: PlanContainer) {
    c.Fmp4Hls? || c.TsHls?
  }

  /** Everything stages A to F and B' said about one input. */
  datatype Evaluation = Evaluation(
    a: StageResult, b: StageResult, c: StageResult, d: StageResult, e: SubtitleOutput, f: StageResult,
    videoWouldTranscode: bool, openGop: StageResult)
  {
    function Base(): seq<StageResult> {
      [a, b, c, d, e.result, f]
    }

    function All(): seq<StageResult> {
      Base() + [openGop]
    }
  }

  function Evaluate(p: Pipeline, input: PlanInput): Evaluation {
    var media, device, sel := input.media, input.device, input.selection;
    var a := p.container(media, device);
    var playable := a.verdict.DirectPlayVerdict?;
    var b := p.video(media, device, sel.video);
    var c := p.hdr(media, device, sel.video, playable);
    var d := p.audio(media, device, sel.audio);
    var e := p.subtitle(media, device, input.policy, sel.subtitle, playable, b.verdict);
    var already := b.verdict.TranscodeVerdict? || c.verdict.TranscodeVerdict? || e.strategy.BurnIn?;
    var f := p.bitrate(media, device, input.network, sel.video, already);
    var would := already || f.verdict.TranscodeVerdict?;
    var provisional := DecisionToContainer(ResolveDecision([a, b, c, d, e.result, f], input.mode), device);
    Evaluation(a, b, c, d, e, f, would, EvaluateOpenGop(media, sel.video, would, Segmented(provisional)))
  }

  // ---------------------------------------------------------------- audio

  function PickAudioTarget(priority: seq<AudioCodec>, all: seq<AudioCodec>, device: DeviceProfile): AudioCodec {
    if priority == [] then (if all == [] then Aac else all[0])
    else if FindAudioEntry(device.audio, priority[0]).Some? then priority[0]
    else PickAudioTarget(priority[1..], all, device)
  }

  function BitrateForChannels(channels: int): int {
    if channels <= 2 then 160_000 else if channels <= 6 then 384_000 else 512_000
  }

  function AssembleAudio(input: PlanInput, d: StageResult): PlanAudio {
    var stream := if input.selection.audio.Some? then FindAudio(input.media.audio, input.selection.audio.value) else None;
    if stream.None? then PlanAudio(NoTrack, None)
    else if !d.verdict.TranscodeVerdict? then PlanAudio(Copy, None)
    else
      var codec := PickAudioTarget(input.policy.audioPriority, input.policy.audioPriority, input.device);
      var entry := FindAudioEntry(input.device.audio, codec);
      var channels := if entry.Some? then Min(stream.value.channels, entry.value.maxChannels) else stream.value.channels;
      var raw := BitrateForChannels(channels);
      PlanAudio(TranscodeTrack, Some(AudioTarget(codec, channels, if codec.Opus? then Ladder.Rounded(3 * raw, 4) else raw)))
  }

  // ---------------------------------------------------------------- assembly

  function VideoAction(input: PlanInput, ev: Evaluation): Action {
    if input.selection.video.None? || input.media.video == [] then NoTrack
    else if ev.videoWouldTranscode || ev.openGop.verdict.TranscodeVerdict? then TranscodeTrack
    else Copy
  }

  /** The leading pictures of an open-GOP hevc copy are stripped when the copy is repackaged. */
  predicate StripsOpenGop(input: PlanInput, action: Action, container: PlanContainer) {
    var stream := SelectedVideo(input.media, input.selection.video);
    action.Copy? && Segmented(container) && stream.Some? && stream.value.openGop && stream.value.codec.Hevc?
  }

  /** The reasons before routing: stage order, then the strip. */
  function StageReasons(input: PlanInput, ev: Evaluation): seq<Reason> {
    var container := DecisionToContainer(ResolveDecision(ev.All(), input.mode), input.device);
    Collected(ev.All())
    + (if StripsOpenGop(input, VideoAction(input, ev), container)
       then [Reason(OpenGopLeadingPicturesStripped, input.selection.video)] else [])
  }

  predicate ToneMapRequired(reasons: seq<Reason>) {
    exists r :: r in reasons && NeedsToneMap(r)
  }

  function FirstToneMap(reasons: seq<Reason>): (k: nat)
    requires ToneMapRequired(reasons)
    ensures k < |reasons| && NeedsToneMap(reasons[k])
    ensures forall i :: 0 <= i < k ==> !NeedsToneMap(reasons[i])
  {
    if NeedsToneMap(reasons[0]) then 0
    else
      assert reasons == [reasons[0]] + reasons[1..];
      1 + FirstToneMap(reasons[1..])
  }

  predicate Disabled(input: PlanInput, ev: Evaluation) {
    ResolveDecision(ev.All(), input.mode).Transcode? && !input.policy.allowTranscode
  }

  predicate Routed(input: PlanInput, ev: Evaluation) {
    VideoAction(input, ev).TranscodeTrack? && !Disabled(input, ev)
  }

  function BuiltLadder(p: Pipeline, input: PlanInput): LadderResult {
    p.ladder(input.media, input.device, input.network, input.policy, input.caps, input.selection.video)
  }

  function RouteTaken(p: Pipeline, input: PlanInput, ev: Evaluation): Routing {
    p.route(input.media, input.device, input.selection.video, input.caps, input.policy,
            BuiltLadder(p, input).ladder, ToneMapRequired(StageReasons(input, ev)))
  }

  /** A tone-map is required and the whole route resolution found no method. */
  predicate Refused(p: Pipeline, input: PlanInput, ev: Evaluation) {
    && Routed(input, ev)
    && ToneMapRequired(StageReasons(input, ev))
    && RouteTaken(p, input, ev).toneMap.None?
  }

  predicate Served(p: Pipeline, input: PlanInput, ev: Evaluation) {
    Routed(input, ev) && !Refused(p, input, ev)
  }

  function RefusalReason(input: PlanInput): Reason {
    var stream := SelectedVideo(input.media, input.selection.video);
    Reason(ToneMapRefusedByPolicy, if stream.Some? then Some(stream.value.index) else None)
  }

  const DISABLED_REASON := Reason(TranscodeDisabledByPolicy, None)

  function FinalLadder(p: Pipeline, input: PlanInput, ev: Evaluation): LadderResult {
    if Served(p, input, ev) then Ladder.Capped(RouteTaken(p, input, ev).ladder, input.policy.tier)
    else LadderResult([], [])
  }

  function FinalReasons(p: Pipeline, input: PlanInput, ev: Evaluation): seq<Reason> {
    var reasons := StageReasons(input, ev);
    if Disabled(input, ev) then reasons + [DISABLED_REASON]
    else if Refused(p, input, ev) then
      var k := FirstToneMap(reasons) + 1;
      reasons[..k] + [RefusalReason(input)] + reasons[k..]
    else if Routed(input, ev) then
      reasons + BuiltLadder(p, input).reasons + RouteTaken(p, input, ev).reasons + FinalLadder(p, input, ev).reasons
    else reasons
  }

  function TopRung(ladder: seq<Rung>): Option<Rung> {
    if ladder == [] then None else Some(ladder[Ladder.TopIndex(ladder)])
  }

  function FinalVideo(p: Pipeline, input: PlanInput, ev: Evaluation): PlanVideo {
    var container := DecisionToContainer(ResolveDecision(ev.All(), input.mode), input.device);
    var action := VideoAction(input, ev);
    var top := TopRung(FinalLadder(p, input, ev).ladder);
    PlanVideo(action,
              if top.Some? then Some(top.value.codec) else None,
              if Served(p, input, ev) then Some(RouteTaken(p, input, ev).encoder) else None,
              if Served(p, input, ev) then RouteTaken(p, input, ev).toneMap else None,
              StripsOpenGop(input, action, container))
  }

  function FinalAudio(input: PlanInput, ev: Evaluation): PlanAudio {
    var audio := AssembleAudio(input, ev.d);
    if Disabled(input, ev) && audio.action.TranscodeTrack? then PlanAudio(TranscodeTrack, None) else audio
  }

  /** There is something for ffmpeg to do. */
  predicate Runs(p: Pipeline, input: PlanInput, ev: Evaluation) {
    && !ResolveDecision(ev.All(), input.mode).DirectPlay?
    && !Refused(p, input, ev) && !Disabled(input, ev)
    && (VideoAction(input, ev).TranscodeTrack? ==> FinalLadder(p, input, ev).ladder != [])
  }

  /** The plan made of what the stages said. */
  function Assembled(p: Pipeline, input: PlanInput, ev: Evaluation): PlaybackPlan {
    var decision := ResolveDecision(ev.All(), input.mode);
    var container := DecisionToContainer(decision, input.device);
    var video, audio := FinalVideo(p, input, ev), FinalAudio(input, ev);
    var subtitle := PlanSubtitle(ev.e.strategy, ev.e.streamIndex);
    var ladder := FinalLadder(p, input, ev).ladder;
    PlaybackPlan(decision, FinalReasons(p, input, ev), container, video, audio, subtitle, ladder,
                 if Runs(p, input, ev)
                 then p.args(input, container, video, audio, subtitle,
                             if video.action.TranscodeTrack? then TopRung(ladder) else None)
                 else [])
  }

  function PlanOf(p: Pipeline, input: PlanInput): PlaybackPlan {
    Assembled(p, input, Evaluate(p, input))
  }

  /** The assembly as the engine performs it, pushing and splicing reasons and filling the video and
      audio fields in as it goes. */
  method MakePlan(p: Pipeline, input: PlanInput) returns (plan: PlaybackPlan)
    ensures plan == PlanOf(p, input)
  {
    var ev := Evaluate(p, input);
    var reasons := Collected(ev.All());
    var decision := ResolveDecision(ev.All(), input.mode);
    var container := DecisionToContainer(decision, input.device);
    var video := PlanVideo(VideoAction(input, ev), None, None, None, false);
    if StripsOpenGop(input, video.action, container) {
      video := video.(openGop := true);
      reasons := reasons + [Reason(OpenGopLeadingPicturesStripped, input.selection.video)];
    }
    assert reasons == StageReasons(input, ev);
    var audio := AssembleAudio(input, ev.d);
    var subtitle := PlanSubtitle(ev.e.strategy, ev.e.streamIndex);
    var transcodeDisabled := decision.Transcode? && !input.policy.allowTranscode;
    var ladder: seq<Rung> := [];
    var toneMapRequired := ToneMapRequired(reasons);
    var toneMapRefused := false;
    var topRung: Option<Rung> := None;

    if video.action.TranscodeTrack? && !transcodeDisabled {
      var built := BuiltLadder(p, input);
      var routing := p.route(input.media, input.device, input.selection.video, input.caps, input.policy,
                             built.ladder, toneMapRequired);
      if toneMapRequired && routing.toneMap.None? {
        toneMapRefused := true;
        var branch := FirstToneMap(reasons);
        reasons := reasons[..branch + 1] + [RefusalReason(input)] + reasons[branch + 1..];
      } else {
        reasons := reasons + built.reasons;
        reasons := reasons + routing.reasons;
        var capped := Ladder.CapAdvertisedVariants(routing.ladder, input.policy.tier);
        reasons := reasons + capped.reasons;
        ladder := capped.ladder;
        video := video.(encoder := Some(routing.encoder));
        if routing.toneMap.Some? {
          video := video.(toneMap := routing.toneMap);
        }
        topRung := TopRung(ladder);
        if topRung.Some? {
          video := video.(targetCodec := Some(topRung.value.codec));
        }
      }
    }

    if transcodeDisabled {
      reasons := reasons + [DISABLED_REASON];
      if audio.action.TranscodeTrack? {
        audio := PlanAudio(TranscodeTrack, None);
      }
    }

    var hasUsableRung := !video.action.TranscodeTrack? || topRung.Some?;
    var ffmpegArgs: seq<string> := [];
    if !(decision.DirectPlay? || toneMapRefused || transcodeDisabled || !hasUsableRung) {
      ffmpegArgs := p.args(input, container, video, audio, subtitle,
                           if video.action.TranscodeTrack? then topRung else None);
    }
    plan := PlaybackPlan(decision, reasons, container, video, audio, subtitle, ladder, ffmpegArgs);
  }
}
