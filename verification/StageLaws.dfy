/** What each stage of the playback engine says, told from the media, the device and the policy, and
    the decision that follows (packages/playback-engine/src/stages, plan.ts). */
module StageLaws {
  import opened Common
  import opened PlaybackTypes
  import opened Stages
  import opened Plan
  import opened PlanProperties

  // ---------------------------------------------------------------- selecting a stream

  /** The first stream with an index is the one that is looked at. */
  lemma {:induction false} FirstVideo(streams: seq<VideoStream>, index: int, k: nat)
    requires forall i :: 0 <= i < k && i < |streams| ==> streams[i].index != index
    ensures k < |streams| && streams[k].index == index ==> FindVideo(streams, index) == Some(streams[k])
    ensures k >= |streams| ==> FindVideo(streams, index) == None
  {
    if k > 0 && streams != [] {
      FirstVideo(streams[1..], index, k - 1);
    }
  }

  lemma {:induction false} FirstAudio(streams: seq<AudioStream>, index: int, k: nat)
    requires forall i :: 0 <= i < k && i < |streams| ==> streams[i].index != index
    ensures k < |streams| && streams[k].index == index ==> FindAudio(streams, index) == Some(streams[k])
    ensures k >= |streams| ==> FindAudio(streams, index) == None
  {
    if k > 0 && streams != [] {
      FirstAudio(streams[1..], index, k - 1);
    }
  }

  lemma {:induction false} FirstSubtitle(streams: seq<SubtitleStream>, index: int, k: nat)
    requires forall i :: 0 <= i < k && i < |streams| ==> streams[i].index != index
    ensures k < |streams| && streams[k].index == index ==> FindSubtitle(streams, index) == Some(streams[k])
    ensures k >= |streams| ==> FindSubtitle(streams, index) == None
  {
    if k > 0 && streams != [] {
      FirstSubtitle(streams[1..], index, k - 1);
    }
  }

  lemma {:induction false} FirstEntry(entries: seq<AudioEntry>, codec: AudioCodec, k: nat)
    requires forall i :: 0 <= i < k && i < |entries| ==> entries[i].codec != codec
    ensures k < |entries| && entries[k].codec == codec ==> FindAudioEntry(entries, codec) == Some(entries[k])
    ensures k >= |entries| ==> FindAudioEntry(entries, codec) == None
  {
    if k > 0 && entries != [] {
      FirstEntry(entries[1..], codec, k - 1);
    }
  }

  // ---------------------------------------------------------------- stage by stage

  predicate Says(s: StageResult, code: ReasonCode, index: int) {
    Reason(code, Some(index)) in s.reasons
  }

  /** HDR a device cannot show without re-encoding it. */
  predicate HidesHdr(v: VideoStream, device: DeviceProfile) {
    || (v.hdr == Hdr10 && !device.hdr10) || (v.hdr == Hlg && !device.hlg)
    || (v.hdr == DolbyVision && !device.dolbyVision
        && !((v.dvProfile == Some(7) || v.dvProfile == Some(8)) && v.dvBlCompatId != None && device.hdr10))
  }

  /** HDR: what cannot be shown is tone-mapped, under the code that names why, and the metadata of a
      strippable Dolby Vision stream is reported as stripped exactly when the file is repackaged. */
  lemma HdrSays(media: MediaInfo, device: DeviceProfile, selection: Option<int>, playable: bool, v: VideoStream)
    requires SelectedVideo(media, selection) == Some(v)
    ensures var s := EvaluateHdr(media, device, selection, playable);
            var base := v.dvProfile == Some(7) || v.dvProfile == Some(8);
            var stripped := v.hdr == DolbyVision && !device.dolbyVision && base && v.dvBlCompatId != None && device.hdr10;
            && (s.verdict == TranscodeVerdict <==> HidesHdr(v, device)) && s.verdict != DirectStreamVerdict
            && (Says(s, DvProfile5RequiresToneMap, v.index) <==> v.hdr == DolbyVision && !device.dolbyVision && !base)
            && (Says(s, HdrToneMapRequired, v.index)
                <==> s.verdict == TranscodeVerdict && !(v.hdr == DolbyVision && !base))
            && (Says(s, DvStrippedToHdr10, v.index) <==> stripped && !playable)
            && |s.reasons| <= 1
  {
  }

  /** A device plays an audio stream when its first entry for the codec takes the channels and, for the
      lossless formats, passes them through. */
  predicate PlaysAudio(a: AudioStream, device: DeviceProfile) {
    exists k :: && 0 <= k < |device.audio| && device.audio[k].codec == a.codec
                && (forall i :: 0 <= i < k ==> device.audio[i].codec != a.codec)
                && a.channels <= device.audio[k].maxChannels
                && (a.codec == TrueHd || a.codec == DtsHd ==> device.audio[k].passthrough)
  }

  lemma EntryDecides(a: AudioStream, device: DeviceProfile, k: nat)
    requires forall i :: 0 <= i < k && i < |device.audio| ==> device.audio[i].codec != a.codec
    requires k < |device.audio| ==> device.audio[k].codec == a.codec
    requires k <= |device.audio|
    ensures FindAudioEntry(device.audio, a.codec) == if k < |device.audio| then Some(device.audio[k]) else None
    ensures PlaysAudio(a, device)
       <==> && k < |device.audio| && a.channels <= device.audio[k].maxChannels
            && (a.codec == TrueHd || a.codec == DtsHd ==> device.audio[k].passthrough)
  {
    FirstEntry(device.audio, a.codec, k);
  }

  lemma BlockersSay(a: AudioStream, entry: Option<AudioEntry>)
    ensures var blockers, lossless := AudioBlockers(a, entry), a.codec == TrueHd || a.codec == DtsHd;
            && (Reason(AudioCodecUnsupported, Some(a.index)) in blockers <==> entry == None)
            && (Reason(AudioChannelsExceedDevice, Some(a.index)) in blockers <==> entry.Some? && a.channels > entry.value.maxChannels)
            && (Reason(AudioPassthroughUnsupported, Some(a.index)) in blockers <==> entry.Some? && lossless && !entry.value.passthrough)
            && (forall r :: r in blockers ==> r.code != AudioAtmosLost && r.code != GaplessDegraded)
            && (blockers == []
                <==> entry.Some? && a.channels <= entry.value.maxChannels && (lossless ==> entry.value.passthrough))
  {
  }

  /** Audio: transcoded exactly when the device does not play it, with every reason that applies; then
      Atmos is lost if it was there, and gapless playback if there is no video. */
  lemma AudioSays(media: MediaInfo, device: DeviceProfile, selection: Option<int>, a: AudioStream, k: nat)
    requires selection.Some? && FindAudio(media.audio, selection.value) == Some(a)
    requires k <= |device.audio| && (k < |device.audio| ==> device.audio[k].codec == a.codec)
    requires forall i :: 0 <= i < k ==> device.audio[i].codec != a.codec
    ensures var s := EvaluateAudio(media, device, selection);
            var lossless := a.codec == TrueHd || a.codec == DtsHd;
            && (s.verdict == TranscodeVerdict <==> !PlaysAudio(a, device))
            && s.verdict != DirectStreamVerdict
            && (Says(s, AudioCodecUnsupported, a.index) <==> k == |device.audio|)
            && (Says(s, AudioChannelsExceedDevice, a.index) <==> k < |device.audio| && a.channels > device.audio[k].maxChannels)
            && (Says(s, AudioPassthroughUnsupported, a.index) <==> k < |device.audio| && lossless && !device.audio[k].passthrough)
            && (Says(s, AudioAtmosLost, a.index) <==> !PlaysAudio(a, device) && a.hasAtmos)
            && (Says(s, GaplessDegraded, a.index) <==> !PlaysAudio(a, device) && media.video == [])
  {
    EntryDecides(a, device, k);
    BlockersSay(a, FindAudioEntry(device.audio, a.codec));
  }

  predicate IsTextual(codec: SubtitleCodec) {
    codec == SubRip || codec == Ass || codec == WebVtt || codec == MovText
  }

  /** Subtitles that can reach the viewer only in the picture. */
  predicate BurnsIn(t: SubtitleStream, device: DeviceProfile, policy: ServerPolicy, playable: bool) {
    if t.codec == UnknownSubtitle then true
    else if IsTextual(t.codec) && device.hlsVtt && policy.prefersHlsVtt then t.codec == Ass && policy.preserveAssStyling
    else !playable || !(if IsTextual(t.codec) then t.codec in device.renderText else device.renderImage)
  }

  /** Subtitles: text goes as WebVTT where device and policy want it so, unless styling is to be kept;
      otherwise what the device renders is embedded in a file that plays as it is, and the rest, with
      everything unknown, is burned in. */
  lemma SubtitleSays(media: MediaInfo, device: DeviceProfile, policy: ServerPolicy, selection: Option<int>, playable: bool,
                     video: Verdict, t: SubtitleStream)
    requires selection.Some? && FindSubtitle(media.subtitle, selection.value) == Some(t)
    ensures var out := EvaluateSubtitle(media, device, policy, selection, playable, video);
            var known, vtt := t.codec != UnknownSubtitle, IsTextual(t.codec) && device.hlsVtt && policy.prefersHlsVtt;
            && (out.strategy == BurnIn <==> BurnsIn(t, device, policy, playable))
            && (out.strategy == HlsVtt <==> vtt && !BurnsIn(t, device, policy, playable))
            && out.strategy != NoSubtitle && out.streamIndex == Some(t.index)
            && out.result.verdict == (if out.strategy == BurnIn then TranscodeVerdict else DirectPlayVerdict)
            && (Says(out.result, SubtitleCodecUnknown, t.index) <==> !known)
            && (Says(out.result, SubtitleBurnInForStyling, t.index) <==> vtt && out.strategy == BurnIn)
            && (Says(out.result, SubtitleFormatRequiresBurnIn, t.index) <==> known && !vtt && out.strategy == BurnIn)
            && (Says(out.result, VideoTranscodeForSubtitleBurnIn, t.index)
                <==> out.strategy == BurnIn && video != TranscodeVerdict)
            && (Says(out.result, SubtitleStylingLost, t.index) <==> out.strategy == HlsVtt && t.codec == Ass)
  {
  }

  predicate ExceedsLimits(media: MediaInfo, device: DeviceProfile, network: Network) {
    && media.overallBitrateBps > network.maxBitrateBps
    && (!network.isLocal || (device.maxStreamBitrateBps.Some? && media.overallBitrateBps > device.maxStreamBitrateBps.value))
  }

  /** Bitrate: a copy is transcoded exactly when it exceeds the network's limit, unless it is played on
      the local network within the device's own limit. */
  lemma BitrateSays(media: MediaInfo, device: DeviceProfile, network: Network, selection: Option<int>, already: bool)
    ensures var s := EvaluateBitrate(media, device, network, selection, already);
            && (s.verdict == TranscodeVerdict
                <==> !already && SelectedVideo(media, selection).Some? && ExceedsLimits(media, device, network))
            && s.verdict != DirectStreamVerdict
            && (s.verdict == TranscodeVerdict ==> s.reasons == [Reason(BitrateExceedsNetwork, None)])
  {
  }

  /** Open GOPs: only an h264 copy into segments is unsafe. */
  lemma OpenGopSays(media: MediaInfo, selection: Option<int>, would: bool, segmented: bool)
    ensures var s, stream := EvaluateOpenGop(media, selection, would, segmented), SelectedVideo(media, selection);
            && (s.verdict == TranscodeVerdict
                <==> stream.Some? && stream.value.codec == H264 && stream.value.openGop && !would && segmented)
            && s.verdict != DirectStreamVerdict
            && (s.verdict == TranscodeVerdict ==> s.reasons == [Reason(VideoOpenGopCopyUnsafe, Some(stream.value.index))])
  {
  }

  // ---------------------------------------------------------------- the decision

  /** What has to be re-encoded, from the input alone and what stage B says. */
  ghost predicate VideoMustChange(p: Pipeline, input: PlanInput) {
    var media, device, stream := input.media, input.device, SelectedVideo(input.media, input.selection.video);
    || p.video(media, device, input.selection.video).verdict == TranscodeVerdict
    || (stream.Some? && (HidesHdr(stream.value, device) || ExceedsLimits(media, device, input.network)))
    || SubtitleMustBurn(input)
  }

  ghost predicate SubtitleMustBurn(input: PlanInput) {
    var t := if input.selection.subtitle.Some? then FindSubtitle(input.media.subtitle, input.selection.subtitle.value) else None;
    t.Some? && BurnsIn(t.value, input.device, input.policy, input.media.container in input.device.directPlayContainers)
  }

  ghost predicate AudioMustChange(input: PlanInput) {
    var a := if input.selection.audio.Some? then FindAudio(input.media.audio, input.selection.audio.value) else None;
    a.Some? && !PlaysAudio(a.value, input.device)
  }

  /** An h264 copy with open GOPs that would be cut into segments. */
  ghost predicate CopyIsUnsafe(p: Pipeline, input: PlanInput) {
    var stream := SelectedVideo(input.media, input.selection.video);
    && stream.Some? && stream.value.codec == H264 && stream.value.openGop && !VideoMustChange(p, input)
    && (AudioMustChange(input) || (input.media.container !in input.device.directPlayContainers && input.mode == Stream))
  }

  lemma AudioVerdict(input: PlanInput)
    ensures var s := EvaluateAudio(input.media, input.device, input.selection.audio);
            s.verdict == (if AudioMustChange(input) then TranscodeVerdict else DirectPlayVerdict)
  {
    var a := if input.selection.audio.Some? then FindAudio(input.media.audio, input.selection.audio.value) else None;
    if a.Some? {
      var k := FirstOfCodec(input.device.audio, a.value.codec);
      AudioSays(input.media, input.device, input.selection.audio, a.value, k);
    }
  }

  lemma FirstOfCodec(entries: seq<AudioEntry>, codec: AudioCodec) returns (k: nat)
    ensures k <= |entries| && (k < |entries| ==> entries[k].codec == codec)
    ensures forall i :: 0 <= i < k ==> entries[i].codec != codec
  {
    k := 0;
    while k < |entries| && entries[k].codec != codec
      invariant k <= |entries| && forall i :: 0 <= i < k ==> entries[i].codec != codec
    {
      k := k + 1;
    }
  }

  lemma SubtitleVerdict(input: PlanInput, playable: bool, video: Verdict)
    requires playable == (input.media.container in input.device.directPlayContainers)
    ensures var out := EvaluateSubtitle(input.media, input.device, input.policy, input.selection.subtitle, playable, video);
            && out.result.verdict == (if SubtitleMustBurn(input) then TranscodeVerdict else DirectPlayVerdict)
            && (out.strategy.BurnIn? <==> SubtitleMustBurn(input))
  {
    var t := if input.selection.subtitle.Some? then FindSubtitle(input.media.subtitle, input.selection.subtitle.value) else None;
    if t.Some? {
      SubtitleSays(input.media, input.device, input.policy, input.selection.subtitle, playable, video, t.value);
    }
  }

  lemma HdrVerdict(input: PlanInput, playable: bool)
    ensures var s, stream := EvaluateHdr(input.media, input.device, input.selection.video, playable),
                             SelectedVideo(input.media, input.selection.video);
            s.verdict == (if stream.Some? && HidesHdr(stream.value, input.device) then TranscodeVerdict else DirectPlayVerdict)
  {
    var stream := SelectedVideo(input.media, input.selection.video);
    if stream.Some? {
      HdrSays(input.media, input.device, input.selection.video, playable, stream.value);
    }
  }

  /** The verdicts of the engine's stages on one input. */
  lemma Verdicts(p: Pipeline, input: PlanInput)
    requires p == LoombrePipeline(p.video, p.args)
    requires VideoStageContract(p.video(input.media, input.device, input.selection.video))
    ensures var ev := Evaluate(p, input);
            && ev.a.verdict == (if input.media.container in input.device.directPlayContainers then DirectPlayVerdict
                                else DirectStreamVerdict)
            && ev.d.verdict == (if AudioMustChange(input) then TranscodeVerdict else DirectPlayVerdict)
            && (ev.videoWouldTranscode <==> VideoMustChange(p, input))
            && ((ev.b.verdict.TranscodeVerdict? || ev.c.verdict.TranscodeVerdict? || ev.e.result.verdict.TranscodeVerdict?
                 || ev.f.verdict.TranscodeVerdict?) <==> VideoMustChange(p, input))
            && ev.b.verdict != DirectStreamVerdict && ev.c.verdict != DirectStreamVerdict
            && ev.e.result.verdict != DirectStreamVerdict && ev.f.verdict != DirectStreamVerdict
  {
    var playable := input.media.container in input.device.directPlayContainers;
    var ev := Evaluate(p, input);
    HdrVerdict(input, playable);
    AudioVerdict(input);
    SubtitleVerdict(input, playable, ev.b.verdict);
    BitrateSays(input.media, input.device, input.network, input.selection.video,
                ev.b.verdict.TranscodeVerdict? || ev.c.verdict.TranscodeVerdict? || ev.e.strategy.BurnIn?);
  }

  /** The verdicts taken together, before the open-GOP stage. */
  lemma BaseDecision(ev: Evaluation, mode: Mode, plays: bool, video: bool, audio: bool)
    requires AllSound(ev.Base()) && OnlyContainerStreams(ev)
    requires ev.a.verdict == (if plays then DirectPlayVerdict else DirectStreamVerdict)
    requires ev.d.verdict == (if audio then TranscodeVerdict else DirectPlayVerdict)
    requires (ev.b.verdict.TranscodeVerdict? || ev.c.verdict.TranscodeVerdict? || ev.e.result.verdict.TranscodeVerdict?
              || ev.f.verdict.TranscodeVerdict?) <==> video
    requires ev.b.verdict != DirectStreamVerdict && ev.c.verdict != DirectStreamVerdict
    requires ev.e.result.verdict != DirectStreamVerdict && ev.f.verdict != DirectStreamVerdict
    ensures ResolveDecision(ev.Base(), mode)
         == if video || audio then Transcode else if plays then DirectPlay else if mode == Download then Remux else DirectStream
  {
    MaxVerdictBounds(ev.Base());
    StreamedOnlyForContainer(ev, ev.Base());
    assert ev.a in ev.Base() && ev.b in ev.Base() && ev.c in ev.Base() && ev.d in ev.Base()
        && ev.e.result in ev.Base() && ev.f in ev.Base();
  }

  /** The decision, exactly: a transcode when the video or the audio has to change, or when an h264 copy
      with open GOPs would be cut into segments; otherwise direct play when the device plays the
      container; otherwise a remux for a download and a stream for playback. And the video is transcoded
      exactly when it has to change or its copy would be unsafe. */
  lemma DecisionExactly(p: Pipeline, input: PlanInput)
    requires p == LoombrePipeline(p.video, p.args)
    requires VideoStageContract(p.video(input.media, input.device, input.selection.video))
    ensures PlanOf(p, input).decision
         == if VideoMustChange(p, input) || AudioMustChange(input) || CopyIsUnsafe(p, input) then Transcode
            else if input.media.container in input.device.directPlayContainers then DirectPlay
            else if input.mode == Download then Remux else DirectStream
    ensures PlanOf(p, input).video.action
         == if input.selection.video == None || input.media.video == [] then NoTrack
            else if VideoMustChange(p, input) || CopyIsUnsafe(p, input) then TranscodeTrack else Copy
  {
    var ev := Evaluate(p, input);
    Verdicts(p, input);
    EngineMeetsContracts(p, input);
    assert forall s :: s in ev.Base() ==> s in ev.All();
    BaseDecision(ev, input.mode, input.media.container in input.device.directPlayContainers, VideoMustChange(p, input),
                 AudioMustChange(input));
    UnsafeIffStage(p, input, ev);
    OpenGopLeavesOrTranscodes(p, input);
  }

  lemma UnsafeIffStage(p: Pipeline, input: PlanInput, ev: Evaluation)
    requires ev == Evaluate(p, input) && (ev.videoWouldTranscode <==> VideoMustChange(p, input))
    requires ResolveDecision(ev.Base(), input.mode)
          == if VideoMustChange(p, input) || AudioMustChange(input) then Transcode
             else if input.media.container in input.device.directPlayContainers then DirectPlay
             else if input.mode == Download then Remux else DirectStream
    ensures ev.openGop.verdict == (if CopyIsUnsafe(p, input) then TranscodeVerdict else DirectPlayVerdict)
    ensures !CopyIsUnsafe(p, input) ==> ev.openGop == PASS
  {
    assert ev.Base() == [ev.a, ev.b, ev.c, ev.d, ev.e.result, ev.f];
    var provisional := DecisionToContainer(ResolveDecision(ev.Base(), input.mode), input.device);
    OpenGopSays(input.media, input.selection.video, ev.videoWouldTranscode, Segmented(provisional));
  }

  // ---------------------------------------------------------------- the audio of a plan

  predicate Takes(device: DeviceProfile, codec: AudioCodec) {
    exists i :: 0 <= i < |device.audio| && device.audio[i].codec == codec
  }

  lemma TakesIffFound(device: DeviceProfile, codec: AudioCodec)
    ensures Takes(device, codec) <==> FindAudioEntry(device.audio, codec).Some?
  {
    var k := FirstOfCodec(device.audio, codec);
    FirstEntry(device.audio, codec, k);
    if k == |device.audio| {
      assert !Takes(device, codec);
    } else {
      assert device.audio[k].codec == codec;
    }
  }

  /** The operator's most preferred codec that the device takes; without one, the most preferred. */
  lemma {:induction false} PickIs(priority: seq<AudioCodec>, all: seq<AudioCodec>, device: DeviceProfile, k: nat)
    requires k <= |priority| && (k < |priority| ==> Takes(device, priority[k]))
    requires forall i :: 0 <= i < k ==> !Takes(device, priority[i])
    ensures PickAudioTarget(priority, all, device)
         == if k < |priority| then priority[k] else if all == [] then Aac else all[0]
  {
    if priority != [] {
      TakesIffFound(device, priority[0]);
      if k > 0 {
        PickIs(priority[1..], all, device, k - 1);
      }
    }
  }

  function BitrateOf(channels: int, codec: AudioCodec): int {
    if codec == Opus then (if channels <= 2 then 120_000 else if channels <= 6 then 288_000 else 384_000)
    else if channels <= 2 then 160_000 else if channels <= 6 then 384_000 else 512_000
  }

  /** The audio of a plan: nothing without a stream, a copy of what the device plays, and otherwise a
      transcode into the codec that operator and device agree on, with no more channels than the device
      takes and a bitrate by their number, three quarters of it for Opus. A disabled transcode names no
      target. `k` is the first of the preferred codecs that the device takes, `j` its first entry. */
  lemma AudioExactly(p: Pipeline, input: PlanInput, a: AudioStream, k: nat, codec: AudioCodec, j: nat)
    requires p == LoombrePipeline(p.video, p.args)
    requires VideoStageContract(p.video(input.media, input.device, input.selection.video))
    requires input.selection.audio.Some? && FindAudio(input.media.audio, input.selection.audio.value) == Some(a)
    requires k <= |input.policy.audioPriority| && (k < |input.policy.audioPriority| ==> Takes(input.device, input.policy.audioPriority[k]))
    requires forall i :: 0 <= i < k ==> !Takes(input.device, input.policy.audioPriority[i])
    requires codec == (if k < |input.policy.audioPriority| then input.policy.audioPriority[k]
                       else if input.policy.audioPriority == [] then Aac else input.policy.audioPriority[0])
    requires j <= |input.device.audio| && (j < |input.device.audio| ==> input.device.audio[j].codec == codec)
    requires forall i :: 0 <= i < j ==> input.device.audio[i].codec != codec
    ensures PlanOf(p, input).audio
         == if PlaysAudio(a, input.device) then PlanAudio(Copy, None)
            else if !input.policy.allowTranscode then PlanAudio(TranscodeTrack, None)
            else
              var channels := if j < |input.device.audio| && input.device.audio[j].maxChannels < a.channels
                              then input.device.audio[j].maxChannels else a.channels;
              PlanAudio(TranscodeTrack, Some(AudioTarget(codec, channels, BitrateOf(channels, codec))))
  {
    Verdicts(p, input);
    DecisionExactly(p, input);
    PickIs(input.policy.audioPriority, input.policy.audioPriority, input.device, k);
    FirstEntry(input.device.audio, codec, j);
    AssembledAudio(input, Evaluate(p, input).d, a, codec, if j < |input.device.audio| then Some(input.device.audio[j]) else None);
  }

  lemma AssembledAudio(input: PlanInput, d: StageResult, a: AudioStream, codec: AudioCodec, entry: Option<AudioEntry>)
    requires input.selection.audio.Some? && FindAudio(input.media.audio, input.selection.audio.value) == Some(a)
    requires PickAudioTarget(input.policy.audioPriority, input.policy.audioPriority, input.device) == codec
    requires FindAudioEntry(input.device.audio, codec) == entry
    ensures AssembleAudio(input, d)
         == if !d.verdict.TranscodeVerdict? then PlanAudio(Copy, None)
            else
              var channels := if entry.Some? && entry.value.maxChannels < a.channels then entry.value.maxChannels else a.channels;
              PlanAudio(TranscodeTrack, Some(AudioTarget(codec, channels, BitrateOf(channels, codec))))
  {
  }
}
