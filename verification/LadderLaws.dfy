/** The ladder told from the configured table, the box, the device and the source
    (packages/playback-engine/src/stages/ladder.ts). */
module LadderLaws {
  import opened Common
  import opened PlaybackTypes
  import opened Av1Gate
  import opened Ladder

  // ---------------------------------------------------------------- the table

  /** The nearest whole number, the upper one of two. */
  lemma RoundedIsNearest(num: int, den: int)
    requires den > 0
    ensures 2 * num - den < 2 * den * Rounded(num, den) <= 2 * num + den
  {
  }

  ghost predicate Encodes(caps: seq<Capability>, software: bool) {
    exists c :: c in caps && (c.backend == Software <==> software) && ToAv1 in c.encode
  }

  /** Whether an av1 rung is admissible: the device takes fragmented mp4 and av1, and some hardware was
      verified to encode av1, or above tier 0 the software. */
  ghost predicate AdmitsAv1(device: DeviceProfile, caps: seq<Capability>, tier: Tier) {
    && device.supportsFmp4 && Av1 in device.videoCodecs
    && (Encodes(caps, false) || (tier != T0 && Encodes(caps, true)))
  }

  /** A configured row as it enters the ladder. Below 2160 lines it is swapped to av1 at three fifths of
      its bitrate, or to hevc at three quarters, where the operator prefers that codec and it can be
      used; av1 goes first. */
  function Entered(row: Rung, av1: bool, hevc: bool): Rung {
    if row.heightPx >= 2160 then row
    else if av1 then Rung(row.heightPx, Rounded(3 * row.videoBitrateBps, 5), row.audioBitrateBps, ToAv1)
    else if hevc then Rung(row.heightPx, Rounded(3 * row.videoBitrateBps, 4), row.audioBitrateBps, ToHevc)
    else row
  }

  /** What the box can encode, and why an av1 rung is refused if it is. */
  lemma EligibleIff(device: DeviceProfile, caps: seq<Capability>, tier: Tier)
    ensures EncodeEligibility(caps, tier).Hw? <==> Encodes(caps, false)
    ensures EncodeEligibility(caps, tier).SoftwareOnly? <==> !Encodes(caps, false) && tier != T0 && Encodes(caps, true)
    ensures RungBlocker(device, caps, tier) == None <==> AdmitsAv1(device, caps, tier)
    ensures RungBlocker(device, caps, tier)
         == if AdmitsAv1(device, caps, tier) then None
            else if !device.supportsFmp4 || Av1 !in device.videoCodecs then Some(DeviceNoAv1)
            else if tier == T0 then Some(Tier0NoHwAv1) else Some(NoAv1Encoder)
  {
    assert HwAv1EncodeVerified(caps) <==> Encodes(caps, false);
    assert SoftwareAv1EncodeVerified(caps) <==> Encodes(caps, true);
  }

  /** The table: every row as it enters; and on a device or a box without av1 the av1 rows are demoted,
      to hevc if the device takes it, each with one reason that says why. */
  lemma TableIs(device: DeviceProfile, policy: ServerPolicy, caps: seq<Capability>, rows: seq<Rung>)
    requires |rows| == |policy.ladderRungs|
    requires forall i :: 0 <= i < |rows| ==>
               rows[i] == Entered(policy.ladderRungs[i], policy.av1EncodePreferred && AdmitsAv1(device, caps, policy.tier),
                                  policy.hevcEncodePreferred && Hevc in device.videoCodecs)
    ensures AdmitsAv1(device, caps, policy.tier)
            ==> Table(device, policy, caps) == rows && TableReasons(device, policy, caps) == []
    ensures !AdmitsAv1(device, caps, policy.tier)
            ==> var target := if Hevc in device.videoCodecs then ToHevc else ToH264;
                var cause := if !device.supportsFmp4 || Av1 !in device.videoCodecs then DeviceNoAv1
                             else if policy.tier == T0 then Tier0NoHwAv1 else NoAv1Encoder;
                var demotions := Demotions(rows, target, cause);
                && Table(device, policy, caps) == Demoted(rows, target)
                && |TableReasons(device, policy, caps)| == |demotions|
                && forall i :: 0 <= i < |demotions|
                     ==> TableReasons(device, policy, caps)[i] == Reason(Av1RungDemoted(demotions[i]), None)
  {
    EligibleIff(device, caps, policy.tier);
    assert SwappedTable(device, policy, caps) == rows;
  }

  // ---------------------------------------------------------------- the bitrate step

  /** Row `i` is above the source, and nearest it: no other row above the source is taller, and none as
      tall has a lower bitrate, or the same one and comes earlier. */
  predicate NearestAbove(rungs: seq<Rung>, source: int, i: nat) {
    && i < |rungs| && rungs[i].videoBitrateBps > source
    && forall j :: 0 <= j < |rungs| && j != i && rungs[j].videoBitrateBps > source
                   ==> || rungs[j].heightPx < rungs[i].heightPx
                       || (rungs[j].heightPx == rungs[i].heightPx
                           && (rungs[j].videoBitrateBps > rungs[i].videoBitrateBps
                               || (rungs[j].videoBitrateBps == rungs[i].videoBitrateBps && j > i)))
  }

  lemma {:induction false} ClampIsNearest(rungs: seq<Rung>, source: int)
    ensures ClampIndex(rungs, source).Some? ==> NearestAbove(rungs, source, ClampIndex(rungs, source).value)
  {
    if rungs != [] {
      var n := |rungs| - 1;
      ClampIsNearest(rungs[..n], source);
      assert forall j :: 0 <= j < n ==> rungs[..n][j] == rungs[j];
    }
  }

  lemma NearestIsClamp(rungs: seq<Rung>, source: int, i: nat)
    ensures ClampIndex(rungs, source) == Some(i) <==> NearestAbove(rungs, source, i)
  {
    ClampIsNearest(rungs, source);
  }

  /** What becomes of row `i` of the rows within the source's height: a row at or below the source's
      bitrate stays; the nearest one above is lowered to five quarters of the source or the table's
      floor, whichever is more, if that is lower; and where no row is at or below the source, the
      first of the lowest stays too. */
  predicate LeavesRung(rungs: seq<Rung>, source: int, floor: int, i: nat, r: Rung) {
    && i < |rungs|
    && if rungs[i].videoBitrateBps <= source then r == rungs[i]
       else if NearestAbove(rungs, source, i) then
         r == rungs[i].(videoBitrateBps := Min(rungs[i].videoBitrateBps, Max(Rounded(5 * source, 4), floor)))
       else
         && r == rungs[i] && (forall j :: 0 <= j < |rungs| ==> rungs[j].videoBitrateBps > source)
         && (forall j :: 0 <= j < |rungs| ==> rungs[j].videoBitrateBps >= rungs[i].videoBitrateBps)
         && (forall j :: 0 <= j < i ==> rungs[j].videoBitrateBps > rungs[i].videoBitrateBps)
  }

  lemma LowestIs(rungs: seq<Rung>, i: nat)
    requires i < |rungs|
    ensures i == LowIndex(rungs)
       <==> && (forall j :: 0 <= j < |rungs| ==> rungs[j].videoBitrateBps >= rungs[i].videoBitrateBps)
            && (forall j :: 0 <= j < i ==> rungs[j].videoBitrateBps > rungs[i].videoBitrateBps)
  {
    var low := LowIndex(rungs);
    assert forall j :: 0 <= j < |rungs| ==> NegatedBitrate(rungs[j]) <= NegatedBitrate(rungs[low]);
    assert forall j :: 0 <= j < low ==> NegatedBitrate(rungs[j]) < NegatedBitrate(rungs[low]);
    if i < low {
      assert NegatedBitrate(rungs[i]) < NegatedBitrate(rungs[low]);
    }
  }

  lemma FateIs(rungs: seq<Rung>, source: int, floor: int, i: nat, r: Rung)
    requires i < |rungs|
    ensures BitrateFate(rungs, source, floor, i) == Some(r) <==> LeavesRung(rungs, source, floor, i, r)
  {
    NearestIsClamp(rungs, source, i);
    LowestIs(rungs, i);
  }

  ghost predicate IsLeft(rungs: seq<Rung>, source: int, floor: int, r: Rung) {
    exists i: nat :: LeavesRung(rungs, source, floor, i, r)
  }

  lemma LeftIff(rungs: seq<Rung>, source: int, floor: int, r: Rung)
    ensures r in AfterBitrate(rungs, source, floor, |rungs|) <==> IsLeft(rungs, source, floor, r)
  {
    AfterBitrateMembership(rungs, source, floor, |rungs|);
    if r in AfterBitrate(rungs, source, floor, |rungs|) {
      var i :| 0 <= i < |rungs| && BitrateFate(rungs, source, floor, i) == Some(r);
      FateIs(rungs, source, floor, i, r);
    } else if IsLeft(rungs, source, floor, r) {
      var i: nat :| LeavesRung(rungs, source, floor, i, r);
      FateIs(rungs, source, floor, i, r);
    }
  }

  // ---------------------------------------------------------------- the whole ladder

  /** The rows that fit the source's height, in table order. */
  function Fitting(table: seq<Rung>, stream: Option<VideoStream>): seq<Rung> {
    Keep(table, (r: Rung) => WithinHeight(r, stream))
  }

  lemma FittingRows(table: seq<Rung>, stream: Option<VideoStream>, r: Rung)
    ensures r in Fitting(table, stream) <==> r in table && (stream == None || r.heightPx <= stream.value.height)
  {
    KeepMembership(table, (x: Rung) => WithinHeight(x, stream));
  }

  /** A rung that the bitrate step leaves of the table, and that network and device can carry. */
  ghost predicate Offered(media: MediaInfo, device: DeviceProfile, network: Network, table: seq<Rung>,
                          stream: Option<VideoStream>, r: Rung)
    requires table != []
  {
    var source := if stream.Some? then stream.value.bitrateBps.GetOr(media.overallBitrateBps) else media.overallBitrateBps;
    && IsLeft(Fitting(table, stream), source, table[LowIndex(table)].videoBitrateBps, r)
    && (network.isLocal || r.videoBitrateBps <= network.maxBitrateBps)
    && (device.maxStreamBitrateBps == None || r.videoBitrateBps <= device.maxStreamBitrateBps.value)
  }

  lemma OfferedIff(media: MediaInfo, device: DeviceProfile, network: Network, table: seq<Rung>,
                   stream: Option<VideoStream>, r: Rung)
    requires table != []
    ensures r in Keep(BeforeCaps(media, stream, table), (x: Rung) => WithinCaps(x, device, network))
       <==> Offered(media, device, network, table, stream, r)
  {
    var within := Fitting(table, stream);
    var source, floor := SourceBitrate(media, stream), Lowest(table).videoBitrateBps;
    KeepMembership(BeforeCaps(media, stream, table), (x: Rung) => WithinCaps(x, device, network));
    assert BeforeCaps(media, stream, table) == AfterBitrate(within, source, floor, |within|);
    LeftIff(within, source, floor, r);
  }

  /** The ladder's rungs, exactly: those the bitrate step leaves and network and device can carry; or,
      when there are none, the first of the table's lowest rows alone. */
  lemma LadderExactly(media: MediaInfo, device: DeviceProfile, network: Network, policy: ServerPolicy,
                      caps: seq<Capability>, videoIndex: Option<int>, r: Rung)
    requires Table(device, policy, caps) != []
    ensures var out := BuildLadder(media, device, network, policy, caps, videoIndex).ladder;
            var table, stream := Table(device, policy, caps), SelectedVideo(media, videoIndex);
            && (Offered(media, device, network, table, stream, r) ==> r in out)
            && (r in out ==> Offered(media, device, network, table, stream, r) || out == [table[LowIndex(table)]])
            && ((forall x :: !Offered(media, device, network, table, stream, x)) ==> out == [table[LowIndex(table)]])
  {
    var table, stream := Table(device, policy, caps), SelectedVideo(media, videoIndex);
    var kept := Keep(BeforeCaps(media, stream, table), (x: Rung) => WithinCaps(x, device, network));
    OfferedIff(media, device, network, table, stream, r);
    if kept != [] {
      OfferedIff(media, device, network, table, stream, kept[0]);
    }
  }

  // ---------------------------------------------------------------- its order

  /** The rungs of `out` serve some of the rows, in their order. */
  ghost predicate ServeInOrder(out: seq<Rung>, rows: seq<Rung>) {
    if out == [] then true
    else if rows == [] then false
    else
      var o, r := |out| - 1, |rows| - 1;
      (ServesRow(out[o], rows[r]) && ServeInOrder(out[..o], rows[..r])) || ServeInOrder(out, rows[..r])
  }

  lemma {:induction false} OrderCarriesOver(a: seq<Rung>, b: seq<Rung>, c: seq<Rung>)
    requires ServeInOrder(a, b) && ServeInOrder(b, c)
    ensures ServeInOrder(a, c)
    decreases |b| + |c|
  {
    if a != [] {
      var k, m, n := |a| - 1, |b| - 1, |c| - 1;
      if ServesRow(b[m], c[n]) && ServeInOrder(b[..m], c[..n]) {
        if ServesRow(a[k], b[m]) && ServeInOrder(a[..k], b[..m]) {
          OrderCarriesOver(a[..k], b[..m], c[..n]);
        } else {
          OrderCarriesOver(a, b[..m], c[..n]);
        }
      } else {
        OrderCarriesOver(a, b, c[..n]);
      }
    }
  }

  lemma {:induction false} KeepOfMore(rungs: seq<Rung>, r: Rung, p: Rung -> bool)
    ensures Keep(rungs + [r], p) == Keep(rungs, p) + (if p(r) then [r] else [])
  {
    if rungs == [] {
      assert rungs + [r] == [r] && [r][1..] == [] && Keep([], p) == [];
    } else {
      assert (rungs + [r])[0] == rungs[0] && (rungs + [r])[1..] == rungs[1..] + [r];
      KeepOfMore(rungs[1..], r, p);
      Regrouped(if p(rungs[0]) then [rungs[0]] else [], Keep(rungs[1..], p), if p(r) then [r] else []);
    }
  }

  lemma Regrouped(a: seq<Rung>, b: seq<Rung>, c: seq<Rung>)
    ensures a + (b + c) == (a + b) + c
  {
  }

  lemma OneMoreServed(out: seq<Rung>, rows: seq<Rung>, r: Rung, row: Rung)
    requires ServeInOrder(out, rows)
    ensures ServeInOrder(out, rows + [row])
    ensures ServesRow(r, row) ==> ServeInOrder(out + [r], rows + [row])
  {
    assert (rows + [row])[..|rows|] == rows && (out + [r])[..|out|] == out;
  }

  lemma NextServed(out: seq<Rung>, rows: seq<Rung>, fate: Option<Rung>, row: Rung)
    requires ServeInOrder(out, rows) && (fate.Some? ==> ServesRow(fate.value, row))
    ensures ServeInOrder(out + (match fate { case Some(r) => [r] case None => [] }), rows + [row])
  {
    OneMoreServed(out, rows, fate.GetOr(row), row);
    assert out + [] == out;
  }

  lemma {:induction false} KeptInOrder(rungs: seq<Rung>, p: Rung -> bool)
    ensures ServeInOrder(Keep(rungs, p), rungs)
  {
    if rungs != [] {
      var n := |rungs| - 1;
      KeptInOrder(rungs[..n], p);
      assert rungs == rungs[..n] + [rungs[n]];
      KeepOfMore(rungs[..n], rungs[n], p);
      OneMoreServed(Keep(rungs[..n], p), rungs[..n], rungs[n], rungs[n]);
      assert Keep(rungs[..n], p) + [] == Keep(rungs[..n], p);
    }
  }

  lemma {:induction false} LeftInOrder(rungs: seq<Rung>, source: int, floor: int, n: nat)
    requires n <= |rungs|
    ensures ServeInOrder(AfterBitrate(rungs, source, floor, n), rungs[..n])
  {
    if n > 0 {
      var front := AfterBitrate(rungs, source, floor, n - 1);
      LeftInOrder(rungs, source, floor, n - 1);
      assert rungs[..n] == rungs[..n - 1] + [rungs[n - 1]];
      var fate := BitrateFate(rungs, source, floor, n - 1);
      NextServed(front, rungs[..n - 1], fate, rungs[n - 1]);
    }
  }

  /** The ladder's rungs come in the order of the table's rows. */
  lemma LadderInOrder(media: MediaInfo, device: DeviceProfile, network: Network, policy: ServerPolicy,
                      caps: seq<Capability>, videoIndex: Option<int>)
    ensures ServeInOrder(BuildLadder(media, device, network, policy, caps, videoIndex).ladder, Table(device, policy, caps))
  {
    var table, stream := Table(device, policy, caps), SelectedVideo(media, videoIndex);
    if table != [] {
      var within := Fitting(table, stream);
      var left := BeforeCaps(media, stream, table);
      KeptInOrder(table, (r: Rung) => WithinHeight(r, stream));
      LeftInOrder(within, SourceBitrate(media, stream), Lowest(table).videoBitrateBps, |within|);
      assert within[..|within|] == within;
      KeptInOrder(left, (r: Rung) => WithinCaps(r, device, network));
      OrderCarriesOver(left, within, table);
      OrderCarriesOver(Keep(left, (r: Rung) => WithinCaps(r, device, network)), left, table);
      LowestServes(table, LowIndex(table));
    }
  }

  lemma {:induction false} LowestServes(table: seq<Rung>, k: nat)
    requires k < |table|
    ensures ServeInOrder([table[k]], table)
  {
    var n := |table| - 1;
    if k < n {
      LowestServes(table[..n], k);
    } else {
      assert [table[k]][..0] == [];
    }
  }

  // ---------------------------------------------------------------- the middle of a capped ladder

  /** Between the top and the lowest rung the tier-0 cap keeps the one nearest their geometric middle:
      with `p` their product, no other row's square is nearer `p` by ratio. Bitrates below one count as
      one. Of rows equally near, the lower bitrate goes first, then the earlier row. */
  lemma MiddleIsNearest(rungs: seq<Rung>, i: nat)
    requires rungs != [] && Middle(rungs).Some? && i < |rungs| && i != TopIndex(rungs) && i != LowIndex(rungs)
    ensures var m, p := Middle(rungs).value, Max(1, rungs[TopIndex(rungs)].videoBitrateBps) * Max(1, rungs[LowIndex(rungs)].videoBitrateBps);
            var v, w := Max(1, rungs[m].videoBitrateBps) * Max(1, rungs[m].videoBitrateBps),
                        Max(1, rungs[i].videoBitrateBps) * Max(1, rungs[i].videoBitrateBps);
            && m != TopIndex(rungs) && m != LowIndex(rungs)
            && Max(v, p) * Min(w, p) <= Max(w, p) * Min(v, p)
            && (Max(v, p) * Min(w, p) == Max(w, p) * Min(v, p)
                ==> || rungs[m].videoBitrateBps < rungs[i].videoBitrateBps
                    || (rungs[m].videoBitrateBps == rungs[i].videoBitrateBps && m <= i))
  {
    var top, low := rungs[TopIndex(rungs)], rungs[LowIndex(rungs)];
    var m := Middle(rungs).value;
    assert !BetterMiddle(rungs[i], rungs[m], SpreadFrom(top, low));
    assert i < m ==> BetterMiddle(rungs[m], rungs[i], SpreadFrom(top, low));
    assert Spread(rungs[m], top, low) <= Spread(rungs[i], top, low);
    var b, c := Max(1, rungs[m].videoBitrateBps), Max(1, rungs[i].videoBitrateBps);
    var p := Max(1, top.videoBitrateBps) * Max(1, low.videoBitrateBps);
    CrossMultiplied(Max(b * b, p), SquareAtLeastOne(b, top, low), Max(c * c, p), SquareAtLeastOne(c, top, low));
  }

  lemma CrossMultiplied(a: int, b: int, c: int, d: int)
    requires b >= 1 && d >= 1 && (a as real) / (b as real) <= (c as real) / (d as real)
    ensures a * d <= c * b
    ensures (a as real) / (b as real) < (c as real) / (d as real) ==> a * d < c * b
  {
    var x, y := (a as real) / (b as real), (c as real) / (d as real);
    var rb, rd := b as real, d as real;
    assert x * rb == a as real && y * rd == c as real;
    assert (a as real) * rd == x * (rb * rd) && (c as real) * rb == y * (rb * rd);
    assert rb * rd > 0.0;
    assert x * (rb * rd) <= y * (rb * rd);
    assert x < y ==> x * (rb * rd) < y * (rb * rd);
    assert ((a * d) as real) == (a as real) * rd && ((c * b) as real) == (c as real) * rb;
  }
}
