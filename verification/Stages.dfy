/** The stages that decide, one axis each, how severe a plan must be
    (packages/playback-engine/src/stages). Stage B's per-axis codec checks stay abstract; they enter
    the plan as a function under the same contract as the others. */
module Stages {
  import opened Common
  import opened PlaybackTypes

  /** The contract of every stage: its verdict is above direct play exactly when it fired a reason of
      the blocking class. */
  predicate Sound(s: StageResult) {
    !s.verdict.DirectPlayVerdict? <==> AnyBlocking(s.reasons)
  }

  // Stage A
  function EvaluateContainer(media: MediaInfo, device: DeviceProfile): (s: StageResult)
    ensures Sound(s)
  {
    if media.container in device.directPlayContainers then PASS
    else
      var reason := Reason(ContainerNotDirectPlayable, None);
      assert reason in [reason];
      StageResult(DirectStreamVerdict, [reason])
  }

  predicate NeedsToneMap(r: Reason) {
    r.code.HdrToneMapRequired? || r.code.DvProfile5RequiresToneMap?
  }

  predicate DvStripApplies(v: VideoStream, device: DeviceProfile) {
    && v.hdr.DolbyVision? && (v.dvProfile == Some(7) || v.dvProfile == Some(8))
    && v.dvBlCompatId.Some? && device.hdr10 && !device.dolbyVision
  }

  /** What the device shows of an HDR stream without re-encoding it. */
  predicate ShowsHdr(v: VideoStream, device: DeviceProfile) {
    match v.hdr
    case NoHdr => true
    case Hdr10 => device.hdr10
    case Hlg => device.hlg
    case DolbyVision => device.dolbyVision || DvStripApplies(v, device)
  }

  // Stage C
  function EvaluateHdr(media: MediaInfo, device: DeviceProfile, selection: Option<int>,
                       containerDirectPlayable: bool): (s: StageResult)
    ensures Sound(s)
    ensures var stream := SelectedVideo(media, selection);
            (exists r :: r in s.reasons && NeedsToneMap(r)) <==> stream.Some? && !ShowsHdr(stream.value, device)
  {
    var stream := SelectedVideo(media, selection);
    if stream.None? || stream.value.hdr.NoHdr? then PASS
    else
      var v := stream.value;
      if v.hdr.DolbyVision? then
        if device.dolbyVision then PASS
        else if DvStripApplies(v, device) then
          StageResult(DirectPlayVerdict,
                      if containerDirectPlayable then [] else [Reason(DvStrippedToHdr10, Some(v.index))])
        else if v.dvProfile == Some(7) || v.dvProfile == Some(8) then Escalated(HdrToneMapRequired, v.index)
        else Escalated(DvProfile5RequiresToneMap, v.index)
      else if (if v.hdr.Hdr10? then device.hdr10 else device.hlg) then PASS
      else Escalated(HdrToneMapRequired, v.index)
  }

  function Escalated(code: ReasonCode, index: int): (s: StageResult)
    ensures s == StageResult(TranscodeVerdict, [Reason(code, Some(index))])
    ensures s.reasons[0] in s.reasons
  {
    StageResult(TranscodeVerdict, [Reason(code, Some(index))])
  }

  function FindAudio(streams: seq<AudioStream>, index: int): Option<AudioStream> {
    if streams == [] then None
    else if streams[0].index == index then Some(streams[0])
    else FindAudio(streams[1..], index)
  }

  function FindAudioEntry(entries: seq<AudioEntry>, codec: AudioCodec): (e: Option<AudioEntry>)
    ensures e.Some? ==> e.value in entries && e.value.codec == codec
    ensures e.None? ==> forall x :: x in entries ==> x.codec != codec
  {
    if entries == [] then None
    else if entries[0].codec == codec then Some(entries[0])
    else FindAudioEntry(entries[1..], codec)
  }

  function AudioBlockers(a: AudioStream, entry: Option<AudioEntry>): seq<Reason> {
    match entry
    case None => [Reason(AudioCodecUnsupported, Some(a.index))]
    case Some(e) =>
      (if a.channels > e.maxChannels then [Reason(AudioChannelsExceedDevice, Some(a.index))] else [])
      + (if (a.codec.TrueHd? || a.codec.DtsHd?) && !e.passthrough
         then [Reason(AudioPassthroughUnsupported, Some(a.index))] else [])
  }

  // Stage D
  function EvaluateAudio(media: MediaInfo, device: DeviceProfile, selection: Option<int>): (s: StageResult)
    ensures Sound(s)
  {
    var stream := if selection.Some? then FindAudio(media.audio, selection.value) else None;
    if stream.None? then PASS
    else
      var a := stream.value;
      var blockers := AudioBlockers(a, FindAudioEntry(device.audio, a.codec));
      if blockers == [] then PASS
      else
        var losses := (if a.hasAtmos then [Reason(AudioAtmosLost, Some(a.index))] else [])
                      + (if media.video == [] then [Reason(GaplessDegraded, Some(a.index))] else []);
        assert blockers[0] in blockers + losses;
        StageResult(TranscodeVerdict, blockers + losses)
  }

  function FindSubtitle(streams: seq<SubtitleStream>, index: int): Option<SubtitleStream> {
    if streams == [] then None
    else if streams[0].index == index then Some(streams[0])
    else FindSubtitle(streams[1..], index)
  }

  function BurnedIn(index: int, code: ReasonCode, videoVerdict: Verdict): (out: SubtitleOutput)
    requires Blocking(code)
    ensures Sound(out.result) && out.result.verdict.TranscodeVerdict? && out.strategy.BurnIn?
  {
    var first := Reason(code, Some(index));
    var reasons := [first] + (if videoVerdict.TranscodeVerdict? then []
                              else [Reason(VideoTranscodeForSubtitleBurnIn, Some(index))]);
    assert first in reasons;
    SubtitleOutput(StageResult(TranscodeVerdict, reasons), BurnIn, Some(index))
  }

  predicate IsText(codec: SubtitleCodec) {
    codec.SubRip? || codec.Ass? || codec.WebVtt? || codec.MovText?
  }

  // Stage E
  function EvaluateSubtitle(media: MediaInfo, device: DeviceProfile, policy: ServerPolicy, selection: Option<int>,
                            containerDirectPlayable: bool, videoVerdict: Verdict): (out: SubtitleOutput)
    ensures Sound(out.result)
    ensures out.strategy.BurnIn? <==> out.result.verdict.TranscodeVerdict?
    ensures out.streamIndex.Some? <==> !out.strategy.NoSubtitle?
  {
    var stream := if selection.Some? then FindSubtitle(media.subtitle, selection.value) else None;
    if stream.None? then SubtitleOutput(PASS, NoSubtitle, None)
    else
      var index, codec := stream.value.index, stream.value.codec;
      if codec.UnknownSubtitle? then BurnedIn(index, SubtitleCodecUnknown, videoVerdict)
      else if IsText(codec) && device.hlsVtt && policy.prefersHlsVtt then
        if codec.Ass? && policy.preserveAssStyling then BurnedIn(index, SubtitleBurnInForStyling, videoVerdict)
        else SubtitleOutput(StageResult(DirectPlayVerdict,
                                        if codec.Ass? then [Reason(SubtitleStylingLost, Some(index))] else []),
                            HlsVtt, Some(index))
      else if (if IsText(codec) then codec in device.renderText else device.renderImage) && containerDirectPlayable then
        SubtitleOutput(PASS, Embed, Some(index))
      else BurnedIn(index, SubtitleFormatRequiresBurnIn, videoVerdict)
  }

  // Stage F
  function EvaluateBitrate(media: MediaInfo, device: DeviceProfile, network: Network, selection: Option<int>,
                           videoAlreadyTranscoding: bool): (s: StageResult)
    ensures Sound(s)
  {
    if videoAlreadyTranscoding || SelectedVideo(media, selection).None? then PASS
    else
      var withinDeviceCap := device.maxStreamBitrateBps.Some?
                             ==> media.overallBitrateBps <= device.maxStreamBitrateBps.value;
      if media.overallBitrateBps > network.maxBitrateBps && !(network.isLocal && withinDeviceCap) then
        var reason := Reason(BitrateExceedsNetwork, None);
        assert reason in [reason];
        StageResult(TranscodeVerdict, [reason])
      else PASS
  }

  // Stage B', evaluated against a container
  function EvaluateOpenGop(media: MediaInfo, selection: Option<int>, videoWouldTranscode: bool,
                           segmented: bool): (s: StageResult)
    ensures Sound(s)
  {
    var stream := SelectedVideo(media, selection);
    if stream.None? || !stream.value.codec.H264? || !stream.value.openGop then PASS
    else if videoWouldTranscode || !segmented then PASS
    else Escalated(VideoOpenGopCopyUnsafe, stream.value.index)
  }
}
