/** Stage G, hardware routing (packages/playback-engine/src/stages/hardware.ts). */
module Hardware {
  import opened Common
  import opened PlaybackTypes
  import opened Av1Gate
  import Ladder

  /** The methods a backend may tone-map with, in order of preference. */
  function ToneMapPreference(b: HardwareBackend): seq<ToneMapMethod> {
    match b
    case VideoToolbox => [VtToneMap]
    case Nvenc => [Cuda]
    case Qsv => [OpenCl, Vulkan]
    case Vaapi => [OpenCl, Vulkan]
    case _ => []
  }

  function FirstVerified(preference: seq<ToneMapMethod>, verified: seq<ToneMapMethod>): (m: Option<ToneMapMethod>)
    ensures m.Some? ==> m.value in preference && m.value in verified
    ensures m.None? ==> forall x :: x in preference ==> x !in verified
  {
    if preference == [] then None
    else if preference[0] in verified then Some(preference[0])
    else FirstVerified(preference[1..], verified)
  }

  function PickToneMap(c: Capability): Option<ToneMapMethod> {
    FirstVerified(ToneMapPreference(c.backend), c.toneMap)
  }

  predicate EncodesAll(c: Capability, ladder: seq<Rung>) {
    c.encode != [] && forall r :: r in ladder ==> r.codec in c.encode
  }

  /** Rule (i): a hardware backend that decodes the source and encodes every target. */
  predicate FullHardware(c: Capability, codec: Option<VideoCodec>, ladder: seq<Rung>, toneMap: bool) {
    && !c.backend.Software?
    && codec.Some? && codec.value in c.decode
    && EncodesAll(c, ladder)
    && (toneMap ==> PickToneMap(c).Some?)
  }

  /** Rule (ii): a hardware encoder fed by software decode. */
  predicate HardwareEncode(c: Capability, caps: seq<Capability>, codec: Option<VideoCodec>,
                           ladder: seq<Rung>, toneMap: bool)
  {
    && !c.backend.Software?
    && EncodesAll(c, ladder)
    && codec.Some? && SoftwareDecodes(caps, codec.value)
    && (toneMap ==> PickToneMap(c).Some?)
  }

  function FindCapability(caps: seq<Capability>, p: Capability -> bool): (c: Option<Capability>)
    ensures c.Some? ==> c.value in caps && p(c.value)
    ensures c.None? ==> forall x :: x in caps ==> !p(x)
  {
    if caps == [] then None
    else if p(caps[0]) then Some(caps[0])
    else FindCapability(caps[1..], p)
  }

  /** Only the first software row is consulted. */
  predicate SoftwareDecodes(caps: seq<Capability>, codec: VideoCodec) {
    var software := FindCapability(caps, (c: Capability) => c.backend.Software?);
    software.Some? && codec in software.value.decode
  }

  function HeightAtMost480(ladder: seq<Rung>): seq<Rung> {
    Ladder.Keep(ladder, (r: Rung) => r.heightPx <= 480)
  }

  function TierCap(ladder: seq<Rung>, tier: Tier, sourceHeight: Option<int>): seq<Rung> {
    if !tier.T0? || sourceHeight.None? || sourceHeight.value < 1080 || ladder == [] then ladder
    else
      var filtered := HeightAtMost480(ladder);
      if filtered != [] then filtered else [Ladder.Lowest(ladder)]
  }

  predicate CpuToneMapAllowed(policy: ServerPolicy) {
    policy.allowToneMapCpu.Always? || (policy.allowToneMapCpu.TierGated? && !policy.tier.T0?)
  }

  /** Why av1 rungs may not stay on the full-software route, if they may not. */
  function SoftwareRouteCause(policy: ServerPolicy, caps: seq<Capability>): Option<DemotionCause> {
    if policy.tier.T0? then Some(Tier0SoftwareRoute)
    else if SoftwareAv1EncodeVerified(caps) then None
    else Some(SoftwareRouteNoAv1)
  }

  function SoftwareLadder(device: DeviceProfile, caps: seq<Capability>, policy: ServerPolicy, ladder: seq<Rung>): seq<Rung> {
    if SoftwareRouteCause(policy, caps).Some? then Demoted(ladder, DemotionTarget(device)) else ladder
  }

  /** Rule (iii): full software, the unconditional last resort. */
  function SoftwareRoute(device: DeviceProfile, stream: Option<VideoStream>, caps: seq<Capability>,
                         policy: ServerPolicy, ladder: seq<Rung>, toneMap: bool): Routing
  {
    var index := if stream.Some? then Some(stream.value.index) else None;
    var routed := SoftwareLadder(device, caps, policy, ladder);
    var capped := TierCap(routed, policy.tier, if stream.Some? then Some(stream.value.height) else None);
    var demotions :=
      match SoftwareRouteCause(policy, caps)
      case Some(cause) => Ladder.DemotionReasons(Demotions(ladder, DemotionTarget(device), cause))
      case None => [];
    Routing([Reason(SoftwareFallbackEncode, index)]
            + demotions
            + (if capped != routed then [Reason(SoftwareFallbackTierCapped, index)] else []),
            Software,
            if toneMap && CpuToneMapAllowed(policy) then Some(CpuZscale) else None,
            capped)
  }

  function RouteHardware(media: MediaInfo, device: DeviceProfile, videoIndex: Option<int>, caps: seq<Capability>,
                         policy: ServerPolicy, ladder: seq<Rung>, toneMap: bool): Routing
  {
    var stream := SelectedVideo(media, videoIndex);
    var codec := if stream.Some? then Some(stream.value.codec) else None;
    var index := if stream.Some? then Some(stream.value.index) else None;
    var full := FindCapability(caps, (c: Capability) => FullHardware(c, codec, ladder, toneMap));
    if full.Some? then
      Routing([Reason(HwEncoderSelected(full.value.backend), index)], full.value.backend,
              if toneMap then PickToneMap(full.value) else None, ladder)
    else
      var half := FindCapability(caps, (c: Capability) => HardwareEncode(c, caps, codec, ladder, toneMap));
      if half.Some? then
        Routing([Reason(SoftwareFallbackDecode, index)], half.value.backend,
                if toneMap then PickToneMap(half.value) else None, ladder)
      else
        SoftwareRoute(device, stream, caps, policy, ladder, toneMap)
  }

  // ---------------------------------------------------------------- what routing guarantees

  lemma TierCapMembers(ladder: seq<Rung>, tier: Tier, sourceHeight: Option<int>)
    ensures forall r :: r in TierCap(ladder, tier, sourceHeight) ==> r in ladder
    ensures ladder != [] ==> TierCap(ladder, tier, sourceHeight) != []
  {
    Ladder.KeepMembership(ladder, (r: Rung) => r.heightPx <= 480);
  }

  /** A non-empty ladder stays non-empty through routing. */
  lemma RoutingKeepsARung(media: MediaInfo, device: DeviceProfile, videoIndex: Option<int>, caps: seq<Capability>,
                          policy: ServerPolicy, ladder: seq<Rung>, toneMap: bool)
    requires ladder != []
    ensures RouteHardware(media, device, videoIndex, caps, policy, ladder, toneMap).ladder != []
  {
    var stream := SelectedVideo(media, videoIndex);
    var routed := SoftwareLadder(device, caps, policy, ladder);
    QualityPointsAreKept(ladder, DemotionTarget(device));
    assert ladder[0] in ladder;
    TierCapMembers(routed, policy.tier, if stream.Some? then Some(stream.value.height) else None);
  }

  /** Verified capabilities only. A hardware encoder is one whose own row encodes every routed rung;
      the software encoder is handed an av1 rung only above tier 0 and only if its row was verified
      to encode av1. */
  lemma RoutedRungsAreEncodable(media: MediaInfo, device: DeviceProfile, videoIndex: Option<int>, caps: seq<Capability>,
                                policy: ServerPolicy, ladder: seq<Rung>, toneMap: bool, r: Rung)
    requires r in RouteHardware(media, device, videoIndex, caps, policy, ladder, toneMap).ladder
    ensures var out := RouteHardware(media, device, videoIndex, caps, policy, ladder, toneMap);
            if out.encoder.Software?
            then IsAv1(r) ==> !policy.tier.T0? && SoftwareAv1EncodeVerified(caps)
            else exists c :: c in caps && c.backend == out.encoder && r.codec in c.encode
  {
    var stream := SelectedVideo(media, videoIndex);
    var codec := if stream.Some? then Some(stream.value.codec) else None;
    var full := FindCapability(caps, (c: Capability) => FullHardware(c, codec, ladder, toneMap));
    var half := FindCapability(caps, (c: Capability) => HardwareEncode(c, caps, codec, ladder, toneMap));
    if full.Some? {
      assert r.codec in full.value.encode;
    } else if half.Some? {
      assert r.codec in half.value.encode;
    } else {
      var routed := SoftwareLadder(device, caps, policy, ladder);
      TierCapMembers(routed, policy.tier, if stream.Some? then Some(stream.value.height) else None);
      DemotedHasNoAv1(ladder, DemotionTarget(device));
    }
  }

  /** Routing resolves a tone-map method exactly when one is needed and some route has one: only the
      software route of a box whose policy forbids CPU tone-mapping has none. */
  lemma NoMethodOnlyOnForbiddenSoftwareRoute(media: MediaInfo, device: DeviceProfile, videoIndex: Option<int>,
                                             caps: seq<Capability>, policy: ServerPolicy, ladder: seq<Rung>,
                                             toneMap: bool)
    ensures var out := RouteHardware(media, device, videoIndex, caps, policy, ladder, toneMap);
            out.toneMap.Some?
            <==> toneMap && (out.encoder != Software || policy.allowToneMapCpu == Always
                             || (policy.allowToneMapCpu == TierGated && policy.tier != T0))
  {
  }

  // ---------------------------------------------------------------- which route is taken

  /** The method a backend tone-maps with: of those it is built for, the preferred one that was verified. */
  function MethodOf(c: Capability): Option<ToneMapMethod> {
    match c.backend
    case VideoToolbox => if VtToneMap in c.toneMap then Some(VtToneMap) else None
    case Nvenc => if Cuda in c.toneMap then Some(Cuda) else None
    case Qsv => if OpenCl in c.toneMap then Some(OpenCl) else if Vulkan in c.toneMap then Some(Vulkan) else None
    case Vaapi => if OpenCl in c.toneMap then Some(OpenCl) else if Vulkan in c.toneMap then Some(Vulkan) else None
    case Amf => None
    case D3d11va => None
    case Software => None
  }

  lemma MethodIsPicked(c: Capability)
    ensures PickToneMap(c) == MethodOf(c)
  {
    if c.backend.Qsv? || c.backend.Vaapi? {
      assert ToneMapPreference(c.backend)[1..] == [Vulkan];
    }
  }

  /** A hardware backend that encodes every rung, and tone-maps if that is needed. */
  ghost predicate EncodesInHardware(c: Capability, ladder: seq<Rung>, toneMap: bool) {
    && c.backend != Software && c.encode != [] && (forall r :: r in ladder ==> r.codec in c.encode)
    && (toneMap ==> MethodOf(c) != None)
  }

  /** The first software row decodes the source. */
  ghost predicate DecodesInSoftware(caps: seq<Capability>, codec: VideoCodec) {
    exists k :: && 0 <= k < |caps| && caps[k].backend == Software && codec in caps[k].decode
                && forall i :: 0 <= i < k ==> caps[i].backend != Software
  }

  lemma {:induction false} FirstCapability(caps: seq<Capability>, p: Capability -> bool, k: nat)
    requires k <= |caps| && (forall i :: 0 <= i < k ==> !p(caps[i])) && (k < |caps| ==> p(caps[k]))
    ensures FindCapability(caps, p) == if k < |caps| then Some(caps[k]) else None
  {
    if k > 0 {
      FirstCapability(caps[1..], p, k - 1);
    }
  }

  lemma FirstIndex(caps: seq<Capability>, p: Capability -> bool) returns (k: nat)
    ensures k <= |caps| && (forall i :: 0 <= i < k ==> !p(caps[i])) && (k < |caps| ==> p(caps[k]))
  {
    k := 0;
    while k < |caps| && !p(caps[k])
      invariant k <= |caps| && forall i :: 0 <= i < k ==> !p(caps[i])
    {
      k := k + 1;
    }
  }

  lemma SoftwareDecodesIff(caps: seq<Capability>, codec: VideoCodec)
    ensures SoftwareDecodes(caps, codec) <==> DecodesInSoftware(caps, codec)
  {
    var p := (c: Capability) => c.backend.Software?;
    var k := FirstIndex(caps, p);
    FirstCapability(caps, p, k);
  }

  /** The route: the first backend that does everything in hardware; failing that, the first that
      encodes in hardware what software decodes; failing that, software. */
  lemma RoutesInOrder(media: MediaInfo, device: DeviceProfile, videoIndex: Option<int>, caps: seq<Capability>,
                      policy: ServerPolicy, ladder: seq<Rung>, toneMap: bool, v: VideoStream, k: nat)
    requires SelectedVideo(media, videoIndex) == Some(v) && k <= |caps|
    ensures var out := RouteHardware(media, device, videoIndex, caps, policy, ladder, toneMap);
            && (k < |caps| && EncodesInHardware(caps[k], ladder, toneMap) && v.codec in caps[k].decode
                && (forall i :: 0 <= i < k ==> !(EncodesInHardware(caps[i], ladder, toneMap) && v.codec in caps[i].decode))
                ==> out == Routing([Reason(HwEncoderSelected(caps[k].backend), Some(v.index))], caps[k].backend,
                                   if toneMap then MethodOf(caps[k]) else None, ladder))
            && (k < |caps| && EncodesInHardware(caps[k], ladder, toneMap) && DecodesInSoftware(caps, v.codec)
                && (forall i :: 0 <= i < |caps| ==> !(EncodesInHardware(caps[i], ladder, toneMap) && v.codec in caps[i].decode))
                && (forall i :: 0 <= i < k ==> !EncodesInHardware(caps[i], ladder, toneMap))
                ==> out == Routing([Reason(SoftwareFallbackDecode, Some(v.index))], caps[k].backend,
                                   if toneMap then MethodOf(caps[k]) else None, ladder))
            && ((forall i :: 0 <= i < |caps| && EncodesInHardware(caps[i], ladder, toneMap)
                             ==> v.codec !in caps[i].decode && !DecodesInSoftware(caps, v.codec))
                ==> out == SoftwareRoute(device, Some(v), caps, policy, ladder, toneMap))
  {
    var codec := Some(v.codec);
    var full := (c: Capability) => FullHardware(c, codec, ladder, toneMap);
    var half := (c: Capability) => HardwareEncode(c, caps, codec, ladder, toneMap);
    SoftwareDecodesIff(caps, v.codec);
    forall c: Capability
      ensures full(c) <==> EncodesInHardware(c, ladder, toneMap) && v.codec in c.decode
      ensures half(c) <==> EncodesInHardware(c, ladder, toneMap) && DecodesInSoftware(caps, v.codec)
      ensures PickToneMap(c) == MethodOf(c)
    {
      MethodIsPicked(c);
    }
    var i := FirstIndex(caps, full);
    var j := FirstIndex(caps, half);
    FirstCapability(caps, full, i);
    FirstCapability(caps, half, j);
  }

  /** What software is handed of a ladder, on a box of tier 0 with a source of 1080 lines or more: the
      rungs of up to 480 lines, or the lowest alone if there are none. Otherwise all of it. */
  lemma SoftwareIsSpared(ladder: seq<Rung>, tier: Tier, height: Option<int>, r: Rung)
    ensures var out, spared := TierCap(ladder, tier, height), tier == T0 && height.Some? && height.value >= 1080;
            && (!spared ==> out == ladder)
            && (spared && (exists low :: low in ladder && low.heightPx <= 480)
                ==> (r in out <==> r in ladder && r.heightPx <= 480))
            && (spared && ladder != [] && (forall low :: low in ladder ==> low.heightPx > 480)
                ==> out == [ladder[Ladder.LowIndex(ladder)]])
  {
    Ladder.KeepMembership(ladder, (x: Rung) => x.heightPx <= 480);
    var kept := HeightAtMost480(ladder);
    assert kept != [] ==> kept[0] in kept && kept[0] in ladder && kept[0].heightPx <= 480;
  }

  /** The software route: its reasons, its tone-map and what becomes of av1 rungs, which stay only above
      tier 0 on a box whose software was verified to encode them. */
  lemma SoftwareRouteIs(device: DeviceProfile, v: VideoStream, caps: seq<Capability>, policy: ServerPolicy, ladder: seq<Rung>,
                        toneMap: bool)
    ensures var out := SoftwareRoute(device, Some(v), caps, policy, ladder, toneMap);
            var keepsAv1 := policy.tier != T0 && exists c :: c in caps && c.backend == Software && ToAv1 in c.encode;
            var target := if Hevc in device.videoCodecs then ToHevc else ToH264;
            var routed := if keepsAv1 then ladder else Demoted(ladder, target);
            var cause := if policy.tier == T0 then Tier0SoftwareRoute else SoftwareRouteNoAv1;
            && out.encoder == Software && out.ladder == TierCap(routed, policy.tier, Some(v.height))
            && out.toneMap == (if toneMap && (policy.allowToneMapCpu == Always
                                              || (policy.allowToneMapCpu == TierGated && policy.tier != T0))
                               then Some(CpuZscale) else None)
            && out.reasons == [Reason(SoftwareFallbackEncode, Some(v.index))]
                              + (if keepsAv1 then [] else Ladder.DemotionReasons(Demotions(ladder, target, cause)))
                              + (if out.ladder != routed then [Reason(SoftwareFallbackTierCapped, Some(v.index))] else [])
  {
  }
}
