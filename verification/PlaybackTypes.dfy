/** Inputs, outputs and reason codes of the playback decision
    (packages/playback-engine/src/types.ts and reasons.ts). Free-text `detail` strings are dropped;
    where a reason carries facts, the facts are fields of its code. */
module PlaybackTypes {
  import opened Common

  type Container = string

  datatype VideoCodec = H264 | Hevc | Av1 | Vp9 | Mpeg2 | Vc1 | Mpeg4 | UnknownVideo

  datatype LadderCodec = ToH264 | ToHevc | ToAv1

  datatype AudioCodec =
    | Aac | Ac3 | Eac3 | TrueHd | Dts | DtsHd | Flac | Opus | Mp3 | Vorbis | Pcm | UnknownAudio

  datatype SubtitleCodec = SubRip | Ass | WebVtt | MovText | Pgs | VobSub | DvbSub | UnknownSubtitle

  datatype HdrKind = NoHdr | Hdr10 | Hlg | DolbyVision

  datatype HardwareBackend = VideoToolbox | Qsv | Vaapi | Nvenc | Amf | D3d11va | Software

  datatype ToneMapMethod = OpenCl | Vulkan | VtToneMap | Cuda | CpuZscale

  datatype VideoStream = VideoStream(
    index: int, codec: VideoCodec, height: int, bitrateBps: Option<int>,
    hdr: HdrKind, dvProfile: Option<int>, dvBlCompatId: Option<int>, openGop: bool)

  datatype AudioStream = AudioStream(index: int, codec: AudioCodec, channels: int, hasAtmos: bool)

  datatype SubtitleStream = SubtitleStream(index: int, codec: SubtitleCodec)

  datatype MediaInfo = MediaInfo(
    container: Container, overallBitrateBps: int,
    video: seq<VideoStream>, audio: seq<AudioStream>, subtitle: seq<SubtitleStream>)

  datatype AudioEntry = AudioEntry(codec: AudioCodec, maxChannels: int, passthrough: bool)

  datatype DeviceProfile = DeviceProfile(
    directPlayContainers: seq<Container>, supportsFmp4: bool, videoCodecs: seq<VideoCodec>,
    hdr10: bool, hlg: bool, dolbyVision: bool, audio: seq<AudioEntry>,
    renderText: seq<SubtitleCodec>, hlsVtt: bool, renderImage: bool,
    maxStreamBitrateBps: Option<int>)

  datatype Network = Network(maxBitrateBps: int, isLocal: bool)

  datatype Tier = T0 | T1 | T2

  datatype ToneMapPolicy = Always | Never | TierGated

  datatype Rung = Rung(heightPx: int, videoBitrateBps: int, audioBitrateBps: int, codec: LadderCodec)

  datatype ServerPolicy = ServerPolicy(
    allowTranscode: bool, allowToneMapCpu: ToneMapPolicy, tier: Tier,
    prefersHlsVtt: bool, preserveAssStyling: bool,
    audioPriority: seq<AudioCodec>, ladderRungs: seq<Rung>,
    hevcEncodePreferred: bool, av1EncodePreferred: bool)

  datatype Capability = Capability(
    backend: HardwareBackend, decode: seq<VideoCodec>, encode: seq<LadderCodec>, toneMap: seq<ToneMapMethod>)

  datatype Selection = Selection(video: Option<int>, audio: Option<int>, subtitle: Option<int>)

  datatype Mode = Stream | Download

  datatype PlanInput = PlanInput(
    media: MediaInfo, device: DeviceProfile, network: Network, policy: ServerPolicy,
    caps: seq<Capability>, selection: Selection, mode: Mode)

  datatype DemotionCause =
    | Tier0NoHwAv1 | DeviceNoAv1 | NoAv1Encoder | Tier0SoftwareRoute | SoftwareRouteNoAv1

  datatype Demotion = Demotion(heightPx: int, demotedTo: LadderCodec, cause: DemotionCause)

  datatype ReasonCode =
    // blocking class
    | ContainerNotDirectPlayable
    | VideoCodecUnsupported | VideoProfileUnsupported | VideoLevelExceedsDevice | VideoBitDepthUnsupported
    | VideoResolutionExceedsDevice | VideoFrameRateExceedsDevice | VideoInterlaced
    | HdrToneMapRequired | DvProfile5RequiresToneMap | ToneMapRefusedByPolicy
    | AudioCodecUnsupported | AudioChannelsExceedDevice | AudioPassthroughUnsupported
    | SubtitleFormatRequiresBurnIn | SubtitleBurnInForStyling | VideoTranscodeForSubtitleBurnIn
    | VideoOpenGopCopyUnsafe | BitrateExceedsNetwork | SubtitleCodecUnknown | TranscodeDisabledByPolicy
    // informational class
    | DvStrippedToHdr10 | SubtitleStylingLost | AudioAtmosLost | GaplessDegraded
    | OpenGopLeadingPicturesStripped
    | Av1RungDemoted(demotion: Demotion)
    | LadderVariantCapped(dropped: seq<Rung>)
    | HwEncoderSelected(backend: HardwareBackend)
    | SoftwareFallbackDecode | SoftwareFallbackEncode | SoftwareFallbackTierCapped

  datatype Reason = Reason(code: ReasonCode, streamIndex: Option<int>)

  predicate Blocking(c: ReasonCode) {
    match c
    case DvStrippedToHdr10 | SubtitleStylingLost | AudioAtmosLost | GaplessDegraded
       | OpenGopLeadingPicturesStripped | Av1RungDemoted(_) | LadderVariantCapped(_)
       | HwEncoderSelected(_) | SoftwareFallbackDecode | SoftwareFallbackEncode | SoftwareFallbackTierCapped => false
    case _ => true
  }

  predicate AnyBlocking(reasons: seq<Reason>) {
    exists r :: r in reasons && Blocking(r.code)
  }

  datatype Verdict = DirectPlayVerdict | DirectStreamVerdict | TranscodeVerdict

  datatype StageResult = StageResult(verdict: Verdict, reasons: seq<Reason>)

  const PASS := StageResult(DirectPlayVerdict, [])

  datatype SubtitleStrategy = NoSubtitle | Embed | HlsVtt | BurnIn

  datatype SubtitleOutput = SubtitleOutput(result: StageResult, strategy: SubtitleStrategy, streamIndex: Option<int>)

  datatype LadderResult = LadderResult(ladder: seq<Rung>, reasons: seq<Reason>)

  datatype Routing = Routing(
    reasons: seq<Reason>, encoder: HardwareBackend, toneMap: Option<ToneMapMethod>, ladder: seq<Rung>)

  datatype Decision = DirectPlay | DirectStream | Remux | Transcode

  datatype PlanContainer = Source | Fmp4Hls | TsHls | Mp4

  datatype Action = Copy | TranscodeTrack | NoTrack

  datatype PlanVideo = PlanVideo(
    action: Action, targetCodec: Option<LadderCodec>, encoder: Option<HardwareBackend>,
    toneMap: Option<ToneMapMethod>, openGop: bool)

  datatype AudioTarget = AudioTarget(codec: AudioCodec, channels: int, bitrateBps: int)

  datatype PlanAudio = PlanAudio(action: Action, target: Option<AudioTarget>)

  datatype PlanSubtitle = PlanSubtitle(strategy: SubtitleStrategy, streamIndex: Option<int>)

  datatype PlaybackPlan = PlaybackPlan(
    decision: Decision, reasons: seq<Reason>, container: PlanContainer, video: PlanVideo,
    audio: PlanAudio, subtitle: PlanSubtitle, ladder: seq<Rung>, ffmpegArgs: seq<string>)

  function FindVideo(streams: seq<VideoStream>, index: int): Option<VideoStream> {
    if streams == [] then None
    else if streams[0].index == index then Some(streams[0])
    else FindVideo(streams[1..], index)
  }

  function SelectedVideo(media: MediaInfo, selection: Option<int>): Option<VideoStream> {
    if selection.Some? then FindVideo(media.video, selection.value) else None
  }
}
