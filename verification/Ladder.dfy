/** Ladder construction and the tier-0 cap on advertised variants
    (packages/playback-engine/src/stages/ladder.ts). */
module Ladder {
  import opened Common
  import opened PlaybackTypes
  import opened Av1Gate

  /** JavaScript's `Math.round(num / den)`: ties go up. */
  function Rounded(num: int, den: int): int
    requires den > 0
  {
    (2 * num + den) / (2 * den)
  }

  // ---------------------------------------------------------------- the table (steps f and g)

  function SwapCodec(r: Rung, av1: bool, hevc: bool): Rung {
    if r.heightPx >= 2160 then r
    else if av1 then Rung(r.heightPx, Rounded(3 * r.videoBitrateBps, 5), r.audioBitrateBps, ToAv1)
    else if hevc then Rung(r.heightPx, Rounded(3 * r.videoBitrateBps, 4), r.audioBitrateBps, ToHevc)
    else r
  }

  function Swapped(rungs: seq<Rung>, av1: bool, hevc: bool): (out: seq<Rung>)
    ensures |out| == |rungs|
    ensures forall i :: 0 <= i < |rungs| ==> out[i] == SwapCodec(rungs[i], av1, hevc)
  {
    seq(|rungs|, i requires 0 <= i < |rungs| => SwapCodec(rungs[i], av1, hevc))
  }

  function SwappedTable(device: DeviceProfile, policy: ServerPolicy, caps: seq<Capability>): seq<Rung> {
    Swapped(policy.ladderRungs, SwapApplies(policy, device, caps),
            policy.hevcEncodePreferred && Hevc in device.videoCodecs)
  }

  function Table(device: DeviceProfile, policy: ServerPolicy, caps: seq<Capability>): seq<Rung> {
    var swapped := SwappedTable(device, policy, caps);
    if RungBlocker(device, caps, policy.tier).None? then swapped
    else Demoted(swapped, DemotionTarget(device))
  }

  function DemotionReasons(demotions: seq<Demotion>): (reasons: seq<Reason>)
    ensures |reasons| == |demotions|
    ensures forall i :: 0 <= i < |demotions| ==> reasons[i] == DemotionReason(demotions[i])
  {
    seq(|demotions|, i requires 0 <= i < |demotions| => DemotionReason(demotions[i]))
  }

  function TableReasons(device: DeviceProfile, policy: ServerPolicy, caps: seq<Capability>): seq<Reason> {
    match RungBlocker(device, caps, policy.tier)
    case None => []
    case Some(cause) =>
      DemotionReasons(Demotions(SwappedTable(device, policy, caps), DemotionTarget(device), cause))
  }

  // ---------------------------------------------------------------- the caps (steps a to e)

  function Keep(rungs: seq<Rung>, p: Rung -> bool): seq<Rung> {
    if rungs == [] then [] else (if p(rungs[0]) then [rungs[0]] else []) + Keep(rungs[1..], p)
  }

  lemma {:induction false} KeepMembership(rungs: seq<Rung>, p: Rung -> bool)
    ensures forall r :: r in Keep(rungs, p) <==> r in rungs && p(r)
  {
    if rungs != [] {
      KeepMembership(rungs[1..], p);
      assert rungs == [rungs[0]] + rungs[1..];
    }
  }

  /** Row `k` is the first of the rows with the greatest key. */
  predicate IsFirstMax(rungs: seq<Rung>, key: Rung -> int, k: nat) {
    && k < |rungs|
    && (forall i :: 0 <= i < |rungs| ==> key(rungs[i]) <= key(rungs[k]))
    && (forall i :: 0 <= i < k ==> key(rungs[i]) < key(rungs[k]))
  }

  function FirstMax(rungs: seq<Rung>, key: Rung -> int): (k: nat)
    requires rungs != []
    ensures IsFirstMax(rungs, key, k)
  {
    var n := |rungs| - 1;
    if n == 0 then 0
    else
      var k := FirstMax(rungs[..n], key);
      if key(rungs[n]) > key(rungs[k]) then n else k
  }

  function Bitrate(r: Rung): int {
    r.videoBitrateBps
  }

  function NegatedBitrate(r: Rung): int {
    -r.videoBitrateBps
  }

  /** The first row of lowest bitrate. */
  function LowIndex(rungs: seq<Rung>): (k: nat)
    requires rungs != []
    ensures IsFirstMax(rungs, NegatedBitrate, k)
  {
    FirstMax(rungs, NegatedBitrate)
  }

  /** The first row of highest bitrate: the rung a plan encodes by default. */
  function TopIndex(rungs: seq<Rung>): (k: nat)
    requires rungs != []
    ensures IsFirstMax(rungs, Bitrate, k)
  {
    FirstMax(rungs, Bitrate)
  }

  function Lowest(rungs: seq<Rung>): Rung
    requires rungs != []
  {
    rungs[LowIndex(rungs)]
  }

  /** Among the rungs above the source bitrate, the one nearest the source's own resolution: the
      greatest height, then the lowest bitrate, then the earliest row. */
  function ClampIndex(rungs: seq<Rung>, sourceBps: int): (k: Option<nat>)
    ensures k.None? <==> forall i :: 0 <= i < |rungs| ==> rungs[i].videoBitrateBps <= sourceBps
    ensures k.Some? ==> k.value < |rungs| && rungs[k.value].videoBitrateBps > sourceBps
    ensures k.Some? ==> forall i :: 0 <= i < |rungs| && rungs[i].videoBitrateBps > sourceBps
                                ==> rungs[i].heightPx <= rungs[k.value].heightPx
  {
    if rungs == [] then None
    else
      var n := |rungs| - 1;
      var best := ClampIndex(rungs[..n], sourceBps);
      if rungs[n].videoBitrateBps <= sourceBps then best
      else if best.None? then Some(n)
      else
        var b := rungs[best.value];
        if rungs[n].heightPx > b.heightPx
           || (rungs[n].heightPx == b.heightPx && rungs[n].videoBitrateBps < b.videoBitrateBps)
        then Some(n) else best
  }

  function Clamped(r: Rung, sourceBps: int, tableFloorBps: int): Rung {
    r.(videoBitrateBps := Min(r.videoBitrateBps, Max(Rounded(5 * sourceBps, 4), tableFloorBps)))
  }

  predicate SurvivesOnMerit(rungs: seq<Rung>, sourceBps: int) {
    exists i :: 0 <= i < |rungs| && rungs[i].videoBitrateBps <= sourceBps
  }

  /** What step (b) makes of row `i`: kept, kept with a lowered bitrate, or dropped. */
  function BitrateFate(rungs: seq<Rung>, sourceBps: int, tableFloorBps: int, i: nat): Option<Rung>
    requires i < |rungs|
  {
    var clamp := ClampIndex(rungs, sourceBps);
    if rungs[i].videoBitrateBps <= sourceBps then Some(rungs[i])
    else if clamp == Some(i) then Some(Clamped(rungs[i], sourceBps, tableFloorBps))
    else if !SurvivesOnMerit(rungs, sourceBps) && i == LowIndex(rungs) then Some(rungs[i])
    else None
  }

  function AfterBitrate(rungs: seq<Rung>, sourceBps: int, tableFloorBps: int, n: nat): seq<Rung>
    requires n <= |rungs|
  {
    if n == 0 then []
    else
      AfterBitrate(rungs, sourceBps, tableFloorBps, n - 1)
      + (match BitrateFate(rungs, sourceBps, tableFloorBps, n - 1) { case Some(r) => [r] case None => [] })
  }

  lemma {:induction false} AfterBitrateMembership(rungs: seq<Rung>, sourceBps: int, tableFloorBps: int, n: nat)
    requires n <= |rungs|
    ensures forall r :: r in AfterBitrate(rungs, sourceBps, tableFloorBps, n)
                   <==> exists i :: 0 <= i < n && BitrateFate(rungs, sourceBps, tableFloorBps, i) == Some(r)
  {
    if n > 0 {
      AfterBitrateMembership(rungs, sourceBps, tableFloorBps, n - 1);
    }
  }

  predicate WithinHeight(r: Rung, stream: Option<VideoStream>) {
    stream.Some? ==> r.heightPx <= stream.value.height
  }

  predicate WithinCaps(r: Rung, device: DeviceProfile, network: Network) {
    && (network.isLocal || r.videoBitrateBps <= network.maxBitrateBps)
    && (device.maxStreamBitrateBps.Some? ==> r.videoBitrateBps <= device.maxStreamBitrateBps.value)
  }

  function SourceBitrate(media: MediaInfo, stream: Option<VideoStream>): int {
    if stream.Some? then stream.value.bitrateBps.GetOr(media.overallBitrateBps) else media.overallBitrateBps
  }

  /** The ladder after steps (a) and (b), before the network and device caps. */
  function BeforeCaps(media: MediaInfo, stream: Option<VideoStream>, table: seq<Rung>): seq<Rung>
    requires table != []
  {
    var within := Keep(table, (r: Rung) => WithinHeight(r, stream));
    AfterBitrate(within, SourceBitrate(media, stream), Lowest(table).videoBitrateBps, |within|)
  }

  function BuildLadder(media: MediaInfo, device: DeviceProfile, network: Network, policy: ServerPolicy,
                       caps: seq<Capability>, videoIndex: Option<int>): LadderResult
  {
    var stream := SelectedVideo(media, videoIndex);
    var table := Table(device, policy, caps);
    var reasons := TableReasons(device, policy, caps);
    if table == [] then LadderResult([], reasons)
    else
      var survivors := Keep(BeforeCaps(media, stream, table), (r: Rung) => WithinCaps(r, device, network));
      if survivors != [] then LadderResult(survivors, reasons)
      else LadderResult([Lowest(table)], reasons)
  }

  // ---------------------------------------------------------------- what the ladder guarantees

  /** No av1 rung reaches the table unless this device and this box admit one. */
  lemma TableAv1IsAdmissible(device: DeviceProfile, policy: ServerPolicy, caps: seq<Capability>, r: Rung)
    requires r in Table(device, policy, caps) && IsAv1(r)
    ensures DeviceAdmitsAv1(device) && !EncodeEligibility(caps, policy.tier).Ineligible?
  {
    if RungBlocker(device, caps, policy.tier).Some? {
      DemotedHasNoAv1(SwappedTable(device, policy, caps), DemotionTarget(device));
    }
  }

  /** A rung the engine swapped to av1 itself is never demoted again. */
  lemma SwapIsNeverDemoted(device: DeviceProfile, policy: ServerPolicy, caps: seq<Capability>)
    requires SwapApplies(policy, device, caps)
    ensures TableReasons(device, policy, caps) == []
    ensures forall i :: 0 <= i < |policy.ladderRungs| && policy.ladderRungs[i].heightPx < 2160
                    ==> IsAv1(Table(device, policy, caps)[i])
  {
  }

  lemma TableKeepsRows(device: DeviceProfile, policy: ServerPolicy, caps: seq<Capability>)
    ensures Table(device, policy, caps) == [] <==> policy.ladderRungs == []
  {
    var swapped, target := SwappedTable(device, policy, caps), DemotionTarget(device);
    QualityPointsAreKept(swapped, target);
    if swapped != [] {
      assert swapped[0] in swapped;
    } else if RungBlocker(device, caps, policy.tier).Some? {
      assert Demoted(swapped, target) == [];
    }
  }

  /** A configured table always yields at least one rung, whatever the caps say. */
  lemma LadderEmptyIffTableEmpty(media: MediaInfo, device: DeviceProfile, network: Network, policy: ServerPolicy,
                                 caps: seq<Capability>, videoIndex: Option<int>)
    ensures BuildLadder(media, device, network, policy, caps, videoIndex).ladder == []
       <==> policy.ladderRungs == []
  {
    TableKeepsRows(device, policy, caps);
  }

  /** `r` is row `t` of the table, at its own bitrate or a lower one. */
  predicate ServesRow(r: Rung, t: Rung) {
    r.videoBitrateBps <= t.videoBitrateBps && r == t.(videoBitrateBps := r.videoBitrateBps)
  }

  lemma BeforeCapsMembers(media: MediaInfo, stream: Option<VideoStream>, table: seq<Rung>, r: Rung)
    requires table != [] && r in BeforeCaps(media, stream, table)
    ensures exists t :: t in table && ServesRow(r, t) && WithinHeight(t, stream)
    ensures var source := SourceBitrate(media, stream);
            || r.videoBitrateBps <= Max(source, Max(Rounded(5 * source, 4), Lowest(table).videoBitrateBps))
            || (r in table && forall t :: t in table && WithinHeight(t, stream) ==> r.videoBitrateBps <= t.videoBitrateBps)
  {
    var p := (t: Rung) => WithinHeight(t, stream);
    var within := Keep(table, p);
    var source, floor := SourceBitrate(media, stream), Lowest(table).videoBitrateBps;
    KeepMembership(table, p);
    AfterBitrateMembership(within, source, floor, |within|);
    var i :| 0 <= i < |within| && BitrateFate(within, source, floor, i) == Some(r);
    assert within[i] in within;
    assert ServesRow(r, within[i]);
  }

  /** Every rung of a ladder is a row of the table at its own bitrate or lower. Unless the caps left
      nothing and the ladder is the table's lowest row alone, each rung is within the source height,
      the network (off the local network) and the device, and above the source bitrate only as the
      clamped rung or the lowest row that fits the source. */
  lemma LadderWithinLimits(media: MediaInfo, device: DeviceProfile, network: Network, policy: ServerPolicy,
                           caps: seq<Capability>, videoIndex: Option<int>, r: Rung)
    requires r in BuildLadder(media, device, network, policy, caps, videoIndex).ladder
    ensures var stream, table := SelectedVideo(media, videoIndex), Table(device, policy, caps);
            var source := SourceBitrate(media, stream);
            && table != []
            && (exists t :: t in table && ServesRow(r, t))
            && (|| BuildLadder(media, device, network, policy, caps, videoIndex).ladder == [Lowest(table)]
                || (&& WithinHeight(r, stream)
                    && WithinCaps(r, device, network)
                    && (|| r.videoBitrateBps <= Max(source, Max(Rounded(5 * source, 4), Lowest(table).videoBitrateBps))
                        || forall t :: t in table && WithinHeight(t, stream) ==> r.videoBitrateBps <= t.videoBitrateBps)))
  {
    var stream, table := SelectedVideo(media, videoIndex), Table(device, policy, caps);
    var p := (t: Rung) => WithinCaps(t, device, network);
    var before := BeforeCaps(media, stream, table);
    KeepMembership(before, p);
    if Keep(before, p) != [] {
      BeforeCapsMembers(media, stream, table, r);
    } else {
      assert Lowest(table) in table && ServesRow(r, Lowest(table));
    }
  }

  /** The transcode does not lose resolution to the bitrate step: for every row that fits the source
      height, a rung at least as tall is left for the caps to judge. */
  lemma SourceResolutionIsKept(media: MediaInfo, stream: Option<VideoStream>, table: seq<Rung>, t: Rung)
    requires t in table && WithinHeight(t, stream)
    ensures exists r :: r in BeforeCaps(media, stream, table) && r.heightPx >= t.heightPx
  {
    var p := (t: Rung) => WithinHeight(t, stream);
    var within := Keep(table, p);
    var source, floor := SourceBitrate(media, stream), Lowest(table).videoBitrateBps;
    KeepMembership(table, p);
    AfterBitrateMembership(within, source, floor, |within|);
    var i :| 0 <= i < |within| && within[i] == t;
    var clamp := ClampIndex(within, source);
    var k := if t.videoBitrateBps <= source then i else clamp.value;
    var r := BitrateFate(within, source, floor, k).value;
    assert r in BeforeCaps(media, stream, table);
  }

  /** An av1 rung in the ladder means the device takes av1 and the box was verified to encode it. */
  lemma LadderAv1IsAdmissible(media: MediaInfo, device: DeviceProfile, network: Network, policy: ServerPolicy,
                              caps: seq<Capability>, videoIndex: Option<int>, r: Rung)
    requires r in BuildLadder(media, device, network, policy, caps, videoIndex).ladder && IsAv1(r)
    ensures DeviceAdmitsAv1(device) && !EncodeEligibility(caps, policy.tier).Ineligible?
  {
    LadderWithinLimits(media, device, network, policy, caps, videoIndex, r);
    var t :| t in Table(device, policy, caps) && ServesRow(r, t);
    TableAv1IsAdmissible(device, policy, caps, t);
  }

  // ---------------------------------------------------------------- the tier-0 variant cap (step h)

  const TIER0_MAX_ADVERTISED_VARIANTS := 3

  /** How far a bitrate is from the geometric middle of two others, as a ratio of at least one:
      `|ln v - (ln top + ln low) / 2|` orders candidates exactly as `max(v*v, P) / min(v*v, P)`
      does, where `P` is the product of the two. Bitrates are floored at one, as the source does. */
  function Spread(v: Rung, top: Rung, low: Rung): real {
    var b := Max(1, v.videoBitrateBps);
    var product := Max(1, top.videoBitrateBps) * Max(1, low.videoBitrateBps);
    (Max(b * b, product) as real) / (SquareAtLeastOne(b, top, low) as real)
  }

  function SquareAtLeastOne(b: int, top: Rung, low: Rung): (m: int)
    requires b >= 1
    ensures m == Min(b * b, Max(1, top.videoBitrateBps) * Max(1, low.videoBitrateBps))
    ensures m >= 1
  {
    var t, l := Max(1, top.videoBitrateBps), Max(1, low.videoBitrateBps);
    assert b * b >= 1 && t * l >= 1;
    Min(b * b, t * l)
  }

  /** `Spread` as a function of the candidate. */
  function SpreadFrom(top: Rung, low: Rung): Rung -> real {
    (r: Rung) => Spread(r, top, low)
  }

  predicate BetterMiddle(a: Rung, b: Rung, spread: Rung -> real) {
    spread(a) < spread(b) || (spread(a) == spread(b) && a.videoBitrateBps < b.videoBitrateBps)
  }

  /** The third kept row among the first `n`, or none if all of them are already kept. */
  function MiddlePrefix(rungs: seq<Rung>, ends: set<nat>, spread: Rung -> real, n: nat): (k: Option<nat>)
    requires n <= |rungs|
    ensures k.None? ==> forall i: nat :: i < n ==> i in ends
    ensures k.Some? ==> k.value < n && k.value !in ends
    ensures k.Some? ==> forall i: nat :: i < n && i !in ends
                                ==> !BetterMiddle(rungs[i], rungs[k.value], spread)
    ensures k.Some? ==> forall i: nat :: i < k.value && i !in ends
                                ==> BetterMiddle(rungs[k.value], rungs[i], spread)
  {
    if n == 0 then None
    else
      var best := MiddlePrefix(rungs, ends, spread, n - 1);
      if n - 1 in ends then best
      else if best.None? || BetterMiddle(rungs[n - 1], rungs[best.value], spread) then Some(n - 1)
      else best
  }

  function Middle(rungs: seq<Rung>): Option<nat>
    requires rungs != []
  {
    var top, low := TopIndex(rungs), LowIndex(rungs);
    MiddlePrefix(rungs, {top, low}, SpreadFrom(rungs[top], rungs[low]), |rungs|)
  }

  function KeptRows(rungs: seq<Rung>): set<nat>
    requires rungs != []
  {
    {TopIndex(rungs), LowIndex(rungs)} + (match Middle(rungs) { case Some(m) => {m} case None => {} })
  }

  /** The rows among the first `n` that are in `keep` (or, for `wanted` false, that are not). */
  function Chosen(rungs: seq<Rung>, keep: set<nat>, wanted: bool, n: nat): seq<Rung>
    requires n <= |rungs|
  {
    if n == 0 then []
    else if (n - 1 in keep) == wanted then Chosen(rungs, keep, wanted, n - 1) + [rungs[n - 1]]
    else Chosen(rungs, keep, wanted, n - 1)
  }

  function Capped(rungs: seq<Rung>, tier: Tier): LadderResult {
    if !tier.T0? || |rungs| <= TIER0_MAX_ADVERTISED_VARIANTS then LadderResult(rungs, [])
    else
      LadderResult(Chosen(rungs, KeptRows(rungs), true, |rungs|),
                   [Reason(LadderVariantCapped(Chosen(rungs, KeptRows(rungs), false, |rungs|)), None)])
  }

  method CapAdvertisedVariants(rungs: seq<Rung>, tier: Tier) returns (out: LadderResult)
    ensures out == Capped(rungs, tier)
  {
    if !tier.T0? || |rungs| <= TIER0_MAX_ADVERTISED_VARIANTS {
      return LadderResult(rungs, []);
    }
    var top, low := FindEnds(rungs);
    var mid := FindMiddle(rungs, {top, low}, SpreadFrom(rungs[top], rungs[low]));
    var keep: set<nat> := {top, low} + (if mid.Some? then {mid.value} else {});
    var kept, dropped: seq<Rung> := [], [];
    for i := 0 to |rungs|
      invariant kept == Chosen(rungs, keep, true, i) && dropped == Chosen(rungs, keep, false, i)
    {
      if i in keep {
        kept := kept + [rungs[i]];
      } else {
        dropped := dropped + [rungs[i]];
      }
    }
    return LadderResult(kept, [Reason(LadderVariantCapped(dropped), None)]);
  }

  method FindEnds(rungs: seq<Rung>) returns (top: nat, low: nat)
    requires rungs != []
    ensures top == TopIndex(rungs) && low == LowIndex(rungs)
  {
    top, low := 0, 0;
    for i := 1 to |rungs|
      invariant top < i && top == TopIndex(rungs[..i])
      invariant low < i && low == LowIndex(rungs[..i])
    {
      assert rungs[..i + 1][..i] == rungs[..i];
      if rungs[i].videoBitrateBps > rungs[top].videoBitrateBps {
        top := i;
      }
      if rungs[i].videoBitrateBps < rungs[low].videoBitrateBps {
        low := i;
      }
    }
    assert rungs[..|rungs|] == rungs;
  }

  method FindMiddle(rungs: seq<Rung>, ends: set<nat>, spread: Rung -> real) returns (mid: Option<nat>)
    ensures mid == MiddlePrefix(rungs, ends, spread, |rungs|)
  {
    mid := None;
    for i := 0 to |rungs|
      invariant mid == MiddlePrefix(rungs, ends, spread, i)
    {
      if i in ends {
        continue;
      }
      if mid.None? || BetterMiddle(rungs[i], rungs[mid.value], spread) {
        mid := Some(i);
      }
    }
  }

  lemma PrefixMultiset(rungs: seq<Rung>, n: nat)
    requires 0 < n <= |rungs|
    ensures multiset(rungs[..n]) == multiset(rungs[..n - 1]) + multiset{rungs[n - 1]}
  {
    assert rungs[..n] == rungs[..n - 1] + [rungs[n - 1]];
  }

  lemma {:induction false} ChosenPartition(rungs: seq<Rung>, keep: set<nat>, n: nat)
    requires n <= |rungs|
    ensures multiset(Chosen(rungs, keep, true, n)) + multiset(Chosen(rungs, keep, false, n)) == multiset(rungs[..n])
  {
    if n > 0 {
      ChosenPartition(rungs, keep, n - 1);
      PrefixMultiset(rungs, n);
    }
  }

  lemma {:induction false} ChosenMembers(rungs: seq<Rung>, keep: set<nat>, n: nat)
    requires n <= |rungs|
    ensures forall r :: r in Chosen(rungs, keep, true, n) <==> exists i: nat :: i < n && i in keep && rungs[i] == r
  {
    if n > 0 {
      ChosenMembers(rungs, keep, n - 1);
    }
  }

  lemma {:induction false} ChosenCount(rungs: seq<Rung>, keep: set<nat>, n: nat)
    requires n <= |rungs|
    ensures |Chosen(rungs, keep, true, n)| == |set i: nat | i in keep && i < n|
  {
    var below := set i: nat | i in keep && i < n;
    if n == 0 {
      assert below == {};
    } else {
      ChosenCount(rungs, keep, n - 1);
      var fewer := set i: nat | i in keep && i < n - 1;
      if n - 1 in keep {
        assert below == fewer + {n - 1};
      } else {
        assert below == fewer;
      }
    }
  }

  predicate AllSameBitrate(rungs: seq<Rung>) {
    forall i :: 0 <= i < |rungs| ==> rungs[i].videoBitrateBps == rungs[0].videoBitrateBps
  }

  /** The cap fires exactly on a tier-0 ladder of more than three rungs, with one reason that names
      every dropped rung. It then leaves three rungs, as documented, except when all rungs have the
      same bitrate: top and lowest are then the same row and only two are left. */
  lemma CapLeavesThreeUnlessFlat(rungs: seq<Rung>, tier: Tier)
    ensures var out := Capped(rungs, tier);
            if tier.T0? && |rungs| > TIER0_MAX_ADVERTISED_VARIANTS
            then && |out.ladder| == (if AllSameBitrate(rungs) then 2 else 3)
                 && |out.reasons| == 1 && out.reasons[0].code.LadderVariantCapped?
                 && multiset(out.ladder) + multiset(out.reasons[0].code.dropped) == multiset(rungs)
            else out == LadderResult(rungs, [])
  {
    if tier.T0? && |rungs| > TIER0_MAX_ADVERTISED_VARIANTS {
      var keep := KeptRows(rungs);
      KeptRowsCount(rungs);
      ChosenPartition(rungs, keep, |rungs|);
      assert rungs[..|rungs|] == rungs;
      ChosenCount(rungs, keep, |rungs|);
      assert (set i: nat | i in keep && i < |rungs|) == keep;
    }
  }

  lemma KeptRowsCount(rungs: seq<Rung>)
    requires |rungs| > TIER0_MAX_ADVERTISED_VARIANTS
    ensures |KeptRows(rungs)| == if AllSameBitrate(rungs) then 2 else 3
    ensures forall i :: i in KeptRows(rungs) ==> i < |rungs|
  {
    var top, low := TopIndex(rungs), LowIndex(rungs);
    var ends: set<nat> := {top, low};
    assert 0 !in ends || 1 !in ends || 2 !in ends;
    var mid := Middle(rungs).value;
    TopIsLowIffFlat(rungs);
    assert KeptRows(rungs) == if top == low then {top, mid} else {top, low, mid};
  }

  lemma TopIsLowIffFlat(rungs: seq<Rung>)
    requires rungs != []
    ensures TopIndex(rungs) == LowIndex(rungs) <==> AllSameBitrate(rungs)
  {
    var top, low := TopIndex(rungs), LowIndex(rungs);
    if top == low {
      forall i | 0 <= i < |rungs|
        ensures Bitrate(rungs[i]) == Bitrate(rungs[top])
      {
        assert NegatedBitrate(rungs[i]) <= NegatedBitrate(rungs[low]);
      }
    }
    if AllSameBitrate(rungs) {
      assert Bitrate(rungs[0]) == Bitrate(rungs[top]) && NegatedBitrate(rungs[0]) == NegatedBitrate(rungs[low]);
    }
  }

  /** The cap never changes what is encoded first or the floor a client can fall to. */
  lemma CapKeepsTopAndFloor(rungs: seq<Rung>, tier: Tier)
    requires rungs != []
    ensures var kept := Capped(rungs, tier).ladder;
            && kept != []
            && (forall r :: r in kept ==> r in rungs)
            && kept[TopIndex(kept)] == rungs[TopIndex(rungs)]
            && kept[LowIndex(kept)] == rungs[LowIndex(rungs)]
  {
    var n := |rungs|;
    if tier.T0? && n > TIER0_MAX_ADVERTISED_VARIANTS {
      var keep := KeptRows(rungs);
      ChosenMembers(rungs, keep, n);
      var kept := Chosen(rungs, keep, true, n);
      var top := ChosenFirstMax(rungs, keep, Bitrate, n, TopIndex(rungs));
      FirstMaxIsUnique(kept, Bitrate, top, TopIndex(kept));
      var low := ChosenFirstMax(rungs, keep, NegatedBitrate, n, LowIndex(rungs));
      FirstMaxIsUnique(kept, NegatedBitrate, low, LowIndex(kept));
    }
  }

  lemma FirstMaxIsUnique(rungs: seq<Rung>, key: Rung -> int, k: nat, m: nat)
    requires IsFirstMax(rungs, key, k) && IsFirstMax(rungs, key, m)
    ensures k == m
  {
    assert key(rungs[k]) <= key(rungs[m]) && key(rungs[m]) <= key(rungs[k]);
  }

  /** A kept first maximum is still the first maximum of what is kept. */
  lemma {:induction false} ChosenFirstMax(rungs: seq<Rung>, keep: set<nat>, key: Rung -> int, n: nat, top: nat)
    returns (k: nat)
    requires n <= |rungs| && top in keep && IsFirstMax(rungs[..n], key, top)
    ensures var kept := Chosen(rungs, keep, true, n);
            IsFirstMax(kept, key, k) && kept[k] == rungs[top]
  {
    var kept, front := Chosen(rungs, keep, true, n), Chosen(rungs, keep, true, n - 1);
    if top == n - 1 {
      ChosenMembers(rungs, keep, n - 1);
      forall j | 0 <= j < |front|
        ensures key(front[j]) < key(rungs[top])
      {
        assert front[j] in front;
        var i: nat :| i < n - 1 && i in keep && rungs[i] == front[j];
        assert rungs[..n][i] == rungs[i];
      }
      assert kept == front + [rungs[top]];
      k := |front|;
    } else {
      assert forall i :: 0 <= i < n ==> rungs[..n][i] == rungs[i];
      k := ChosenFirstMax(rungs, keep, key, n - 1, top);
      assert kept == front + (if n - 1 in keep then [rungs[n - 1]] else []);
      assert key(rungs[..n][n - 1]) <= key(rungs[top]);
    }
  }
}
