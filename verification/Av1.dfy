/** The AV1 encode gate and the shared demotion primitive (packages/playback-engine/src/av1.ts). */
module Av1Gate {
  import opened Common
  import opened PlaybackTypes

  datatype Eligibility = Hw | SoftwareOnly | Ineligible

  predicate HwAv1EncodeVerified(caps: seq<Capability>) {
    exists c :: c in caps && !c.backend.Software? && ToAv1 in c.encode
  }

  predicate SoftwareAv1EncodeVerified(caps: seq<Capability>) {
    exists c :: c in caps && c.backend.Software? && ToAv1 in c.encode
  }

  function EncodeEligibility(caps: seq<Capability>, tier: Tier): Eligibility {
    if HwAv1EncodeVerified(caps) then Hw
    else if !tier.T0? && SoftwareAv1EncodeVerified(caps) then SoftwareOnly
    else Ineligible
  }

  predicate DeviceAdmitsAv1(device: DeviceProfile) {
    device.supportsFmp4 && Av1 in device.videoCodecs
  }

  /** Why an av1 rung is not admissible on this device and box, if it is not. The operator's
      preference is not an argument: an explicit av1 rung is itself the preference. */
  function RungBlocker(device: DeviceProfile, caps: seq<Capability>, tier: Tier): Option<DemotionCause> {
    if !DeviceAdmitsAv1(device) then Some(DeviceNoAv1)
    else if !EncodeEligibility(caps, tier).Ineligible? then None
    else if tier.T0? then Some(Tier0NoHwAv1)
    else Some(NoAv1Encoder)
  }

  predicate SwapApplies(policy: ServerPolicy, device: DeviceProfile, caps: seq<Capability>) {
    policy.av1EncodePreferred && RungBlocker(device, caps, policy.tier).None?
  }

  function DemotionTarget(device: DeviceProfile): (target: LadderCodec)
    ensures !target.ToAv1?
  {
    if Hevc in device.videoCodecs then ToHevc else ToH264
  }

  function DemotionReason(d: Demotion): Reason {
    Reason(Av1RungDemoted(d), None)
  }

  // ---------------------------------------------------------------- demotion

  function Rewritten(r: Rung, target: LadderCodec): Rung {
    if r.codec.ToAv1? then r.(codec := target) else r
  }

  /** A demoted rung is dropped when the table has the same rung elsewhere, either configured as
      such or demoted from an earlier row. */
  predicate Duplicated(rungs: seq<Rung>, target: LadderCodec, i: nat)
    requires i < |rungs|
  {
    exists j :: 0 <= j < |rungs| && j != i
             && Rewritten(rungs[j], target) == Rewritten(rungs[i], target)
             && (!rungs[j].codec.ToAv1? || j < i)
  }

  /** What the first `n` rows of the table contribute to the demoted ladder. */
  function DemotedPrefix(rungs: seq<Rung>, target: LadderCodec, n: nat): seq<Rung>
    requires n <= |rungs|
  {
    if n == 0 then []
    else if rungs[n - 1].codec.ToAv1? && Duplicated(rungs, target, n - 1)
    then DemotedPrefix(rungs, target, n - 1)
    else DemotedPrefix(rungs, target, n - 1) + [Rewritten(rungs[n - 1], target)]
  }

  function Demoted(rungs: seq<Rung>, target: LadderCodec): seq<Rung> {
    DemotedPrefix(rungs, target, |rungs|)
  }

  function DemotionsPrefix(rungs: seq<Rung>, target: LadderCodec, cause: DemotionCause, n: nat): seq<Demotion>
    requires n <= |rungs|
  {
    if n == 0 then []
    else
      DemotionsPrefix(rungs, target, cause, n - 1)
      + (if rungs[n - 1].codec.ToAv1? then [Demotion(rungs[n - 1].heightPx, target, cause)] else [])
  }

  function Demotions(rungs: seq<Rung>, target: LadderCodec, cause: DemotionCause): seq<Demotion> {
    DemotionsPrefix(rungs, target, cause, |rungs|)
  }

  method DemoteAv1Rungs(rungs: seq<Rung>, device: DeviceProfile, cause: DemotionCause)
    returns (out: seq<Rung>, demotions: seq<Demotion>)
    ensures out == Demoted(rungs, DemotionTarget(device))
    ensures demotions == Demotions(rungs, DemotionTarget(device), cause)
  {
    var target := DemotionTarget(device);
    if !exists r :: r in rungs && r.codec.ToAv1? {
      NothingToDemote(rungs, target, cause, |rungs|);
      return rungs, [];
    }
    out, demotions := [], [];
    for i := 0 to |rungs|
      invariant out == DemotedPrefix(rungs, target, i)
      invariant demotions == DemotionsPrefix(rungs, target, cause, i)
    {
      var rung := Rewritten(rungs[i], target);
      if rungs[i].codec.ToAv1? {
        demotions := demotions + [Demotion(rung.heightPx, target, cause)];
        var duplicate := exists j :: 0 <= j < |rungs| && j != i
                                  && Rewritten(rungs[j], target) == rung && (!rungs[j].codec.ToAv1? || j < i);
        if duplicate {
          continue;
        }
      }
      out := out + [rung];
    }
  }

  lemma {:induction false} NothingToDemote(rungs: seq<Rung>, target: LadderCodec, cause: DemotionCause, n: nat)
    requires n <= |rungs|
    requires forall r :: r in rungs ==> !r.codec.ToAv1?
    ensures DemotedPrefix(rungs, target, n) == rungs[..n]
    ensures DemotionsPrefix(rungs, target, cause, n) == []
  {
    if n > 0 {
      assert rungs[n - 1] in rungs;
      NothingToDemote(rungs, target, cause, n - 1);
    }
  }

  lemma {:induction false} DemotedPrefixHasNoAv1(rungs: seq<Rung>, target: LadderCodec, n: nat)
    requires n <= |rungs| && !target.ToAv1?
    ensures forall r :: r in DemotedPrefix(rungs, target, n) ==> !r.codec.ToAv1?
  {
    if n > 0 {
      DemotedPrefixHasNoAv1(rungs, target, n - 1);
    }
  }

  lemma DemotedHasNoAv1(rungs: seq<Rung>, target: LadderCodec)
    requires !target.ToAv1?
    ensures forall r :: r in Demoted(rungs, target) ==> !r.codec.ToAv1?
  {
    DemotedPrefixHasNoAv1(rungs, target, |rungs|);
  }

  lemma DemotionIsIdempotent(rungs: seq<Rung>, target: LadderCodec)
    requires !target.ToAv1?
    ensures Demoted(Demoted(rungs, target), target) == Demoted(rungs, target)
  {
    var once := Demoted(rungs, target);
    DemotedHasNoAv1(rungs, target);
    NothingToDemote(once, target, DeviceNoAv1, |once|);
  }

  predicate IsAv1(r: Rung) {
    r.codec.ToAv1?
  }

  function NonAv1(rungs: seq<Rung>): seq<Rung> {
    if rungs == [] then []
    else
      var n := |rungs| - 1;
      NonAv1(rungs[..n]) + (if IsAv1(rungs[n]) then [] else [rungs[n]])
  }

  function CountAv1(rungs: seq<Rung>): nat {
    if rungs == [] then 0
    else CountAv1(rungs[..|rungs| - 1]) + (if IsAv1(rungs[|rungs| - 1]) then 1 else 0)
  }

  lemma {:induction false} NonAv1Membership(rungs: seq<Rung>, r: Rung)
    ensures r in NonAv1(rungs) <==> r in rungs && !IsAv1(r)
  {
    if rungs != [] {
      var n := |rungs| - 1;
      NonAv1Membership(rungs[..n], r);
      assert rungs == rungs[..n] + [rungs[n]];
    }
  }

  /** One demotion is reported per av1 row, dropped duplicates included. */
  lemma {:induction false} OneDemotionPerAv1Rung(rungs: seq<Rung>, target: LadderCodec, cause: DemotionCause, n: nat)
    requires n <= |rungs|
    ensures |DemotionsPrefix(rungs, target, cause, n)| == CountAv1(rungs[..n])
  {
    if n > 0 {
      OneDemotionPerAv1Rung(rungs, target, cause, n - 1);
      assert rungs[..n][..n - 1] == rungs[..n - 1];
    }
  }

  ghost predicate Subsequence(a: seq<Rung>, b: seq<Rung>) {
    if a == [] then true
    else if b == [] then false
    else if a[|a| - 1] == b[|b| - 1] && Subsequence(a[..|a| - 1], b[..|b| - 1]) then true
    else Subsequence(a, b[..|b| - 1])
  }

  /** Every configured non-av1 row survives, in table order. */
  lemma {:induction false} NonAv1RungsSurviveInOrder(rungs: seq<Rung>, target: LadderCodec, n: nat)
    requires n <= |rungs|
    ensures Subsequence(NonAv1(rungs[..n]), DemotedPrefix(rungs, target, n))
  {
    if n > 0 {
      NonAv1RungsSurviveInOrder(rungs, target, n - 1);
      var p, q := rungs[..n], DemotedPrefix(rungs, target, n - 1);
      assert p[..n - 1] == rungs[..n - 1];
      var r := Rewritten(rungs[n - 1], target);
      assert (q + [r])[..|q|] == q;
      var kept := NonAv1(rungs[..n - 1]);
      assert kept + [] == kept;
      assert (kept + [rungs[n - 1]])[..|kept|] == kept;
    }
  }

  /** `q` is a row of the table as configured, not the product of a demotion. */
  predicate Configured(rungs: seq<Rung>, q: Rung) {
    q in rungs && !IsAv1(q)
  }

  /** One of the first `n` rows is an av1 rung that demotion turns into `q`. */
  predicate DemotesTo(rungs: seq<Rung>, target: LadderCodec, n: nat, q: Rung)
    requires n <= |rungs|
  {
    exists i :: 0 <= i < n && IsAv1(rungs[i]) && Rewritten(rungs[i], target) == q
  }

  lemma DuplicatedIff(rungs: seq<Rung>, target: LadderCodec, i: nat)
    requires i < |rungs| && !target.ToAv1? && IsAv1(rungs[i])
    ensures var q := Rewritten(rungs[i], target);
            Duplicated(rungs, target, i) <==> Configured(rungs, q) || DemotesTo(rungs, target, i, q)
  {
    var q := Rewritten(rungs[i], target);
    if Configured(rungs, q) {
      var j :| 0 <= j < |rungs| && rungs[j] == q;
      assert j != i && Rewritten(rungs[j], target) == q;
    }
  }

  lemma CountOfAppended(before: seq<Rung>, last: Rung, q: Rung)
    ensures multiset(before + [last])[q] == multiset(before)[q] + (if last == q then 1 else 0)
  {
  }

  lemma NonAv1Step(rungs: seq<Rung>, n: nat, q: Rung)
    requires 0 < n <= |rungs|
    ensures multiset(NonAv1(rungs[..n]))[q]
         == multiset(NonAv1(rungs[..n - 1]))[q] + (if !IsAv1(rungs[n - 1]) && rungs[n - 1] == q then 1 else 0)
  {
    assert rungs[..n][..n - 1] == rungs[..n - 1];
    var front := NonAv1(rungs[..n - 1]);
    CountOfAppended(front, rungs[n - 1], q);
    assert front + [] == front;
  }

  lemma DemotedStep(rungs: seq<Rung>, target: LadderCodec, n: nat, q: Rung)
    requires 0 < n <= |rungs| && !target.ToAv1?
    ensures var last := rungs[n - 1];
            multiset(DemotedPrefix(rungs, target, n))[q]
            == multiset(DemotedPrefix(rungs, target, n - 1))[q]
             + (if Rewritten(last, target) == q && !(IsAv1(last) && (Configured(rungs, q) || DemotesTo(rungs, target, n - 1, q)))
                then 1 else 0)
  {
    var last := rungs[n - 1];
    if IsAv1(last) {
      DuplicatedIff(rungs, target, n - 1);
    }
    CountOfAppended(DemotedPrefix(rungs, target, n - 1), Rewritten(last, target), q);
  }

  /** How often `q` occurs after demotion: as often as it is configured, plus one if it exists only
      as a demotion. */
  lemma {:induction false} DemotedPrefixCounts(rungs: seq<Rung>, target: LadderCodec, n: nat, q: Rung)
    requires n <= |rungs| && !target.ToAv1?
    ensures multiset(DemotedPrefix(rungs, target, n))[q]
         == multiset(NonAv1(rungs[..n]))[q]
          + (if !Configured(rungs, q) && DemotesTo(rungs, target, n, q) then 1 else 0)
  {
    if n > 0 {
      DemotedPrefixCounts(rungs, target, n - 1, q);
      DemotesToStep(rungs, target, n, q);
      NonAv1Step(rungs, n, q);
      DemotedStep(rungs, target, n, q);
    }
  }

  lemma DemotesToStep(rungs: seq<Rung>, target: LadderCodec, n: nat, q: Rung)
    requires 0 < n <= |rungs|
    ensures DemotesTo(rungs, target, n, q)
       <==> || DemotesTo(rungs, target, n - 1, q)
            || (IsAv1(rungs[n - 1]) && Rewritten(rungs[n - 1], target) == q)
  {
  }

  lemma DemotedCounts(rungs: seq<Rung>, target: LadderCodec, q: Rung)
    requires !target.ToAv1?
    ensures multiset(Demoted(rungs, target))[q]
         == multiset(NonAv1(rungs))[q]
          + (if !Configured(rungs, q) && DemotesTo(rungs, target, |rungs|, q) then 1 else 0)
  {
    DemotedPrefixCounts(rungs, target, |rungs|, q);
    assert rungs[..|rungs|] == rungs;
  }

  /** No quality point is lost: every configured height and bitrate pair is still in the ladder, and
      nothing is in the ladder that was not configured. */
  lemma QualityPointsAreKept(rungs: seq<Rung>, target: LadderCodec)
    requires !target.ToAv1?
    ensures forall r :: r in rungs ==> Rewritten(r, target) in Demoted(rungs, target)
    ensures forall q :: q in Demoted(rungs, target) ==> exists r :: r in rungs && Rewritten(r, target) == q
  {
    var out := Demoted(rungs, target);
    forall r | r in rungs
      ensures Rewritten(r, target) in out
    {
      var q := Rewritten(r, target);
      DemotedCounts(rungs, target, q);
      NonAv1Membership(rungs, q);
      if Configured(rungs, q) {
        assert q in multiset(NonAv1(rungs));
      } else {
        var i :| 0 <= i < |rungs| && rungs[i] == r;
        assert DemotesTo(rungs, target, |rungs|, q);
      }
      assert q in multiset(out);
    }
    forall q | q in out
      ensures exists r :: r in rungs && Rewritten(r, target) == q
    {
      assert q in multiset(out);
      DemotedCounts(rungs, target, q);
      NonAv1Membership(rungs, q);
      if !DemotesTo(rungs, target, |rungs|, q) {
        assert q in multiset(NonAv1(rungs));
        assert Rewritten(q, target) == q;
      }
    }
  }

  lemma {:induction false} NonAv1Counts(rungs: seq<Rung>, q: Rung)
    ensures multiset(NonAv1(rungs))[q] == if IsAv1(q) then 0 else multiset(rungs)[q]
  {
    if rungs != [] {
      var n := |rungs| - 1;
      NonAv1Counts(rungs[..n], q);
      assert rungs == rungs[..n] + [rungs[n]];
    }
  }

  lemma SameRows(a: seq<Rung>, b: seq<Rung>, target: LadderCodec, q: Rung)
    requires multiset(a) == multiset(b)
    ensures Configured(a, q) ==> Configured(b, q)
    ensures DemotesTo(a, target, |a|, q) ==> DemotesTo(b, target, |b|, q)
  {
    assert q in a ==> q in multiset(a);
    if DemotesTo(a, target, |a|, q) {
      var i :| 0 <= i < |a| && IsAv1(a[i]) && Rewritten(a[i], target) == q;
      assert a[i] in multiset(b);
      var j :| 0 <= j < |b| && b[j] == a[i];
    }
  }

  /** Which rungs come out does not depend on the order they were configured in. */
  lemma DemotionIgnoresTableOrder(a: seq<Rung>, b: seq<Rung>, target: LadderCodec)
    requires !target.ToAv1? && multiset(a) == multiset(b)
    ensures multiset(Demoted(a, target)) == multiset(Demoted(b, target))
  {
    forall q: Rung
      ensures multiset(Demoted(a, target))[q] == multiset(Demoted(b, target))[q]
    {
      DemotedCounts(a, target, q);
      DemotedCounts(b, target, q);
      NonAv1Counts(a, q);
      NonAv1Counts(b, q);
      SameRows(a, b, target, q);
      SameRows(b, a, target, q);
    }
  }
}
