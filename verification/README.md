# Loombre: verified decision and protocol code

This project models the parts of Loombre that decide something or keep something, and proves what
they are relied on for. Most of that code is pure or takes its clock as an argument; where it shares
state with other processes, goroutines or crashes, the model lets those act between any two steps.

- **Playback planning** (`PlaybackTypes`, `Av1`, `Ladder`, `LadderLaws`, `Hardware`, `Stages`,
  `StageLaws`, `Plan`, `PlanLaws`, `PlanProperties`): the assembly of stage verdicts into a plan. The
  laws are proved for arbitrary stages under their documented contracts; the engine's own stages, ladder and routing are modelled
  too and proved to meet those contracts. The detailed video checks and the argument builder stay
  arbitrary.
- **Jobs** (`Ledger`, `JobQueue`, `QueueRuns`, `QueueStart`): the job ledger and its events, the
  batch handler, the start of the queue, and both stores over whole runs with failed writes, lost
  sends, crashes, expiries and the boot sweep. The queue driver is the environment.
- **Plugin host** (`Breaker`, `CallPlugin`, `Ipv6Text`, `AddressPolicy`): the circuit breaker over
  whole histories and interleaved calls, the IPv6 text parser against the grammar it reads, the
  address classifier against a table of CIDR blocks, and the capped reader.
- **Durable state** (`JwtSecret`, `PgUpgrade`, `Supervisor`, `DbMigrate`): the JWT secret across
  boots and crashes, the PostgreSQL upgrade with any step failing, the supervised server process with
  exits at any moment, and the migration runner interrupted anywhere.
- **Text and bytes** (`RedactPaths`, `RedactTwice`, `RedactForms`, `FfmpegFailure`, `FfmpegText`,
  `Signature`, `LinkSealing`, `Uuid`, `ConfigSchema`, `Manifest`, on top of `Text`): path redaction,
  failure sanitising, signature headers, sealed tokens, UUIDs and the checks of plugin manifests.
- **Linux tray** (`Tray`): the controller's goroutines over their two locks, and its menu cache.

Methods follow the loops and the in-place updates of the source and are proved against specification
functions; the lemmas are about those functions and about runs of steps built from them.

## What turned out false

Where the code does not do what its documentation or its comments say, the model follows the code. A
lemma shows a failing case, and others say exactly when the claim holds.

- The tier-0 variant cap is documented to leave three rungs. It leaves two when all bitrates are
  equal (`CapLeavesThreeUnlessFlat`).
- A breaker whose trial ends in an uncounted rejection stays half-open until an operator resets it
  (`UncountedTrialWedges`, `WedgedIffUncountedTrial`), and a failure that is reported late lets a
  second trial in beside the first: exactly when another call was in flight as the trial was admitted
  (`TrialIsAloneIff`, `StaleFailureAdmitsSecondTrial`).
- A ledger row can say failed while the job may still run: after a send that throws behind its
  publication, or after the boot sweep, which can also fail the row of a job that is being run or is
  about to be published (`FailedEarlyIffCaused`, `StepFailsEarlyIff`, `SweepContradictsIff`,
  `LostSendContradicts`). A retry recorded on a swept row keeps the old finish time
  (`FinishTimesAgreeIff`).
- A boot in fallback mints a second JWT secret (`FallbackReplacesTheSecret`, `BootKeepsSecretIff`), and
  a crash between creating and filling the secret file loses the secret unless the next boot still
  finds it in the native store (`TornRecoversIff`).
- An upgrade whose backup path is the data directory or lies around it deletes the cluster and reports
  it intact (`OverlappingBackupLosesData`, `BackupSparesClusterIff`). One whose backup path is in the
  upgrade's scratch directory deletes the backup (`BackupInScratchIsCleared`).
- A server that dies while its start is finishing can be reported ready for good
  (`ReadyWithoutAServer`, `ReadyMeansRunningUnlessTooLate`), and the exit of an abandoned process can
  make the supervisor lose the server it started next (`LateExitLosesTheServer`).
- Two migration runners at once can run a file twice (`ConcurrentRunnersApplyTwice`): unless one of
  them finds nothing to apply when it reads the bookkeeping (`TwoRunnersCommitOnceIff`).
- Redaction of whole lines is not idempotent (`OneLineNeedsTwoPasses`, `SharedQuoteNeedsTwoPasses`),
  while its bare-path rule is (`BareRuleIsIdempotent`). `LineTwiceIff` says for every line when a
  second pass changes nothing, and `OneKindTwiceIff` says it in terms of quoted paths that share a
  quote. A sanitised ffmpeg line can keep a drive path, and `DetailNamesNoPath` says when
  (`DriveCanBeLeft`).
- A quoted file URL whose scheme is not all lower-case is not redacted (`OddSchemeIsKept`), though the
  bare-path rule reads schemes in any case.
- Malformed timestamps get past the signature parser: an empty one is read as zero and `007` as seven
  (`TimestampReadsBackIff`, `EmptyTimestampIsZero`).
- In the tray a start and a shutdown can be in flight together, through one window only
  (`OverlapNeedsTheWindow`, `WindowIsReached`), and an older snapshot can be drawn last
  (`LastDrawnWins`).

## Model

| member | source | states |
|---|---|---|
| Breaker.PluginCircuitBreaker.constructor | packages/plugin-host/src/breaker.ts:105-117 | A breaker starts closed with no failures, or continues a durable failure count and is open from the start when that count has reached the threshold |
| Breaker.PluginCircuitBreaker.BeforeCall | packages/plugin-host/src/breaker.ts:127-136 | Whether a call is let through, and the whole state after the question: a closed breaker admits, a half-open one does not, an open one admits one trial once the reset timeout has elapsed |
| Breaker.PluginCircuitBreaker.OnSuccess | packages/plugin-host/src/breaker.ts:138-142 | A success clears the state, the count and the opening time |
| Breaker.PluginCircuitBreaker.OnFailure | packages/plugin-host/src/breaker.ts:144-161 | The count, the state and the opening time after a failure, and whether this failure tripped the breaker |
| Breaker.PluginCircuitBreaker.Reset | packages/plugin-host/src/breaker.ts:167-171 | A manual reset clears everything |
| Breaker.CountIsSeedPlusFailures | packages/plugin-host/src/breaker.ts:105-171 | After any history the count is the number of failures since the last success or reset, on top of the durable seed while nothing has cleared it |
| Breaker.ClosedIffBelowThreshold | packages/plugin-host/src/breaker.ts:98-172 | With a threshold of at least one, closed is exactly "fewer failures than the threshold", and an opening time is kept exactly while not closed |
| Breaker.ZeroThresholdStartsClosed | packages/plugin-host/src/breaker.ts:105-117 | With a threshold of zero that equivalence fails at once: the fresh breaker |
| Breaker.TrippedIffClosedToOpen | packages/plugin-host/src/breaker.ts:144-161 | `tripped` is reported exactly on the calls that take the breaker from closed to open |
| Breaker.TripsAreSeparated | packages/plugin-host/src/breaker.ts:144-171 | Two trips have a success or reset between them: one outage is reported once |
| Breaker.OneTrialPerHalfOpenPeriod | packages/plugin-host/src/breaker.ts:123-136 | After a trial no call is admitted until an outcome is recorded or the breaker is reset |
| Breaker.HalfOpenIffUnansweredTrial | packages/plugin-host/src/breaker.ts:127-161 | Half-open exactly while some admitted trial has had no outcome or reset since |
| Breaker.CooldownIsExact | packages/plugin-host/src/breaker.ts:123-161 | While the breaker stays open, the next call is admitted exactly when the timeout has elapsed since the failure that opened it; failures reported late do not move the clock |
| Breaker.SeededCooldownIsExact | packages/plugin-host/src/breaker.ts:105-136 | A breaker that the durable failure count opens cools down from the time that came with that count |
| CallPlugin.RecordOutcome | packages/plugin-host/src/call-plugin.ts:114-137 | Which outcomes are recorded with the breaker, and as what: any response by its status, a timeout, a network error or an unexpected throw as a failure, other rejections not at all |
| CallPlugin.Call | packages/plugin-host/src/call-plugin.ts:86-139 | The result for every outcome, that a refused call contacts nothing, and the breaker state it leaves |
| CallPlugin.FetchManifest | packages/plugin-host/src/manifest-client.ts:98-180 | The manifest client has the same effect on the breaker as a call with the same transport outcome, whatever the body parses to; each failure has its own stage |
| CallPlugin.ClosedCallCounts | packages/plugin-host/src/call-plugin.ts:56-137 | Reason by reason, what a call through a closed breaker does to the count: which outcomes add one, which clear it, and the six rejections that leave it |
| CallPlugin.OpensAtThresholdStreak | packages/plugin-host/src/call-plugin.ts:86-139 | Over any calls from a fresh breaker, the count is the streak of failing outcomes and the breaker opens at exactly the call that brings the streak to the threshold |
| CallPlugin.InterleavingIsAHistory | packages/plugin-host/src/call-plugin.ts:86-139 | Any interleaving of calls in flight drives the breaker through a history of the `Breaker` module, so its laws hold of all of them |
| CallPlugin.TrialLeavesHalfOpenIffRecorded | packages/plugin-host/src/call-plugin.ts:102-138 | A trial closes the breaker exactly on a 2xx status, re-opens it exactly on a timeout, a network error, a throw or another status, and otherwise leaves it half-open |
| CallPlugin.UncountedTrialWedges | packages/plugin-host/src/call-plugin.ts:123-129 | After an uncounted rejection of a trial, with nothing in flight, nothing is ever admitted again until an operator resets |
| CallPlugin.WedgedIffUncountedTrial | packages/plugin-host/src/call-plugin.ts:86-139 | Between calls the breaker is half-open exactly when some trial ended in an uncounted rejection and no reset came since |
| CallPlugin.TrialStaysAlone | packages/plugin-host/src/call-plugin.ts:86-95 | A trial admitted with nothing else in flight stays the only call in flight in every interleaving |
| CallPlugin.StaleFailureReopens | packages/plugin-host/src/call-plugin.ts:114-137 | From any state with a trial and another call in flight, a counted failure of the other re-opens the breaker with its old clock reading and lets a second trial in beside the first |
| CallPlugin.TrialIsAloneIff | packages/plugin-host/src/call-plugin.ts:86-137 | So some run without a reset admits another call beside an unanswered trial exactly when another call was in flight at its admission |
| CallPlugin.StaleFailureAdmitsSecondTrial | packages/plugin-host/src/call-plugin.ts:86-137 | Such a run from a fresh breaker: two trials in flight |
| Av1Gate.DemoteAv1Rungs | packages/playback-engine/src/av1.ts:217-255 | The rewriting loop computes the specified rungs and demotions |
| Av1Gate.DemotedHasNoAv1 | packages/playback-engine/src/av1.ts:217-255 | No av1 rung is left |
| Av1Gate.DemotionIsIdempotent | packages/playback-engine/src/av1.ts:217-255 | Demoting twice is demoting once |
| Av1Gate.OneDemotionPerAv1Rung | packages/playback-engine/src/av1.ts:241-252 | One demotion is reported per av1 rung, dropped duplicates included |
| Av1Gate.NonAv1RungsSurviveInOrder | packages/playback-engine/src/av1.ts:241-252 | The rungs that were not av1 are all kept, in table order |
| Av1Gate.DemotedCounts | packages/playback-engine/src/av1.ts:226-252 | How often each rung occurs afterwards: as often as it was configured, or once when only demotion makes it |
| Av1Gate.QualityPointsAreKept | packages/playback-engine/src/av1.ts:189-255 | Every configured height and pair of bitrates is still there, and nothing is there that was not configured |
| Av1Gate.DemotionIgnoresTableOrder | packages/playback-engine/src/av1.ts:189-255 | The multiset of the output depends only on the multiset of the input |
| Ladder.LadderEmptyIffTableEmpty | packages/playback-engine/src/stages/ladder.ts:305-430 | A ladder is empty exactly when the operator configured no rungs |
| Ladder.LadderWithinLimits | packages/playback-engine/src/stages/ladder.ts:305-430 | Each rung serves a table row at its bitrate or lower and respects source height, network, device and the clamped source bitrate, unless the ladder is the lowest row alone |
| Ladder.SourceResolutionIsKept | packages/playback-engine/src/stages/ladder.ts:370-415 | The bitrate step never loses resolution: for every row within the source height a rung at least as tall is left |
| Ladder.LadderAv1IsAdmissible | packages/playback-engine/src/stages/ladder.ts:326-365 | An av1 rung means that the device takes av1 and the box was verified to encode it |
| Ladder.SwapIsNeverDemoted | packages/playback-engine/src/stages/ladder.ts:326-365 | Where the engine itself swaps rungs to av1, the demotion pass does nothing |
| Ladder.CapAdvertisedVariants | packages/playback-engine/src/stages/ladder.ts:517-570 | The capping loops compute the specified ladder and reason |
| Ladder.CapLeavesThreeUnlessFlat | packages/playback-engine/src/stages/ladder.ts:442-570 | The cap fires exactly on a tier-0 ladder of more than three rungs and its reason names every dropped rung; three are left, but two when all bitrates are equal |
| Ladder.CapKeepsTopAndFloor | packages/playback-engine/src/stages/ladder.ts:486-570 | The cap keeps the top rung and the lowest one |
| LadderLaws.EligibleIff | packages/playback-engine/src/av1.ts:67-153 | What the box can encode by hardware and software verified and the tier; why an av1 rung is not admissible, and when it is |
| LadderLaws.TableIs | packages/playback-engine/src/stages/ladder.ts:305-365 | The table: each row as it enters, with the codec swaps and their bitrates, and the demotions with their reason |
| LadderLaws.LadderExactly | packages/playback-engine/src/stages/ladder.ts:366-430 | Exactly which rungs a ladder holds: what the bitrate step leaves and network and device can carry, or the lowest row alone |
| LadderLaws.FateIs | packages/playback-engine/src/stages/ladder.ts:370-415 | What becomes of each row in the bitrate step |
| LadderLaws.LadderInOrder | packages/playback-engine/src/stages/ladder.ts:366-430 | The rungs come in the order of the table |
| LadderLaws.MiddleIsNearest | packages/playback-engine/src/stages/ladder.ts:486-570 | The third rung the cap keeps is the one nearest the geometric middle of the top and the lowest; of rows equally near the lower bitrate, then the earlier |
| LadderLaws.RoundedIsNearest | packages/playback-engine/src/stages/ladder.ts:326-365 | Rounding is to the nearest whole number, the upper one of two |
| Hardware.RoutingKeepsARung | packages/playback-engine/src/stages/hardware.ts:375-550 | A non-empty ladder stays non-empty through routing |
| Hardware.RoutedRungsAreEncodable | packages/playback-engine/src/stages/hardware.ts:393-549 | The encoder that routing names was verified for every rung it is handed, and software gets av1 only above tier 0 and only where verified |
| Hardware.NoMethodOnlyOnForbiddenSoftwareRoute | packages/playback-engine/src/stages/hardware.ts:325-550 | A needed tone-map has no method exactly on the software route under a policy that forbids CPU tone-mapping |
| Hardware.RoutesInOrder | packages/playback-engine/src/stages/hardware.ts:375-550 | The route: the first backend that does everything in hardware, else the first that encodes what software decodes, else software; with its encoder, tone-map and reason |
| Hardware.MethodIsPicked | packages/playback-engine/src/stages/hardware.ts:245-267 | Each backend's tone-map methods in their order of preference |
| Hardware.SoftwareIsSpared | packages/playback-engine/src/stages/hardware.ts:301-317 | On tier 0 with a source of 1080 lines or more, software gets the rungs of up to 480 lines, or the lowest alone |
| Hardware.SoftwareRouteIs | packages/playback-engine/src/stages/hardware.ts:440-550 | The software route: its reasons, its tone-map, and where av1 rungs may stay |
| Stages.EvaluateContainer | packages/playback-engine/src/stages/container.ts:25-39 | Stage A is above direct play exactly when it fired a reason of the blocking class |
| Stages.EvaluateHdr | packages/playback-engine/src/stages/hdr.ts:134-246 | Stage C likewise; and it asks for a tone-map exactly when the device cannot show the selected HDR stream |
| Stages.EvaluateAudio | packages/playback-engine/src/stages/audio.ts:143-211 | Stage D likewise sound |
| Stages.EvaluateSubtitle | packages/playback-engine/src/stages/subtitle.ts:261-298 | Stage E likewise; its strategy is burn-in exactly when its verdict is a transcode, and it names a stream exactly when it has a strategy |
| Stages.EvaluateBitrate | packages/playback-engine/src/stages/ladder.ts:217-264 | Stage F likewise sound |
| Stages.EvaluateOpenGop | packages/playback-engine/src/stages/open-gop.ts:55-66 | The open-GOP stage likewise sound |
| StageLaws.HdrSays | packages/playback-engine/src/stages/hdr.ts:134-246 | HDR: the verdict and each reason exactly, by kind, profile and device |
| StageLaws.AudioSays | packages/playback-engine/src/stages/audio.ts:143-211 | Audio: a transcode exactly when the device does not play it, and each reason exactly |
| StageLaws.SubtitleSays | packages/playback-engine/src/stages/subtitle.ts:261-298 | Subtitles: the strategy and each reason exactly |
| StageLaws.BitrateSays | packages/playback-engine/src/stages/ladder.ts:217-264 | Bitrate: a transcode exactly when the limits are exceeded |
| StageLaws.OpenGopSays | packages/playback-engine/src/stages/open-gop.ts:55-66 | Open GOPs: only an h264 copy into segments is unsafe |
| Plan.MakePlan | packages/playback-engine/src/plan.ts:338-756 | The assembly, which pushes and splices reasons and fills fields in as it goes, computes the specified plan |
| PlanProperties.OpenGopIsExactInOnePass | packages/playback-engine/src/plan.ts:396-449 | For all stages, modes and devices: the open-GOP stage says the same against the final container as against the provisional one; an escalation ends in a segmented container; every other consistent answer is at least as severe |
| PlanProperties.AssemblyReasons | packages/playback-engine/src/plan.ts:504-694 | Which of the assembly's own reasons a plan carries, each exactly under its condition |
| PlanProperties.VideoTranscodeNeedsDecision | packages/playback-engine/src/plan.ts:470-477 | Video is transcoded only under a transcode decision |
| PlanProperties.DirectPlayIffNothingBlocks | docs/PLAYBACK.md:2228-2233 | Direct-play bias and reason completeness: direct play exactly when no reason is of the blocking class, and then there is nothing to run |
| PlanProperties.ContainerIff | packages/playback-engine/src/plan.ts:326-336 | The source file exactly when nothing blocks, mp4 exactly for a remux, and for streams and transcodes fragmented mp4 or transport stream exactly by what the device reads |
| PlanProperties.TranscodeIffAStageSaysSo | packages/playback-engine/src/plan.ts:437-447 | The decision is a transcode exactly when a stage says so |
| StageLaws.DecisionExactly | packages/playback-engine/src/plan.ts:338-477 | The decision and the video action, exactly, from the input alone and what stage B says |
| StageLaws.AudioExactly | packages/playback-engine/src/plan.ts:255-318 | The audio of a plan exactly: its action, codec, channels and bitrate |
| PlanLaws.StagedIs | packages/playback-engine/src/plan.ts:413-507 | The reasons before routing: the stages in order, then the strip, which is set exactly on a repackaged hevc copy of the selected open-GOP stream |
| PlanLaws.CopiedPlanIs | packages/playback-engine/src/plan.ts:468-739 | Without a video transcode: no ladder, encoder or tone-map, the stages' own reasons, and the arguments of what is copied |
| PlanLaws.DisabledPlanIs | packages/playback-engine/src/plan.ts:546-687 | A disallowed video transcode selects nothing and carries its verdict last |
| PlanLaws.RefusedPlanIs | packages/playback-engine/src/plan.ts:618-642 | A refused one selects nothing; the refusal names the stream and stands right behind the first tone-map reason |
| PlanLaws.ServedPlanIs | packages/playback-engine/src/plan.ts:583-739 | Any other: the routed ladder, capped; routed encoder and tone-map; codec of the top rung; the reasons of stages, ladder, routing and cap in this order; and the arguments for the top rung |
| PlanLaws.RemuxIff | packages/playback-engine/src/plan.ts:413-447 | A remux is decided exactly for a download that nothing but the container keeps from direct play |
| PlanProperties.DownloadRemuxesWhatStreamingRepackages | packages/playback-engine/src/plan.ts:416-447 | Download and streaming of one input compared: same direct plays, a download is never a stream, what streaming repackages is remuxed |
| PlanProperties.RefusedShape | packages/playback-engine/src/plan.ts:618-642 | A tone-map refusal is an empty transcode; its reasons are the stages' own with the refusal right after the first tone-map reason |
| PlanProperties.DisabledShape | packages/playback-engine/src/plan.ts:677-694 | A disabled transcode is empty likewise, promises no audio target, and its verdict is the last reason |
| PlanProperties.ToneMapIsNeverSkipped | packages/playback-engine/src/plan.ts:556-675 | A plan that needs a tone-map transcodes and has exactly one of a method, a refusal and a disabled verdict |
| PlanProperties.StripIsReportedIffPerformed | packages/playback-engine/src/plan.ts:479-513 | The leading-picture strip is reported exactly when it is performed, and only on a repackaged hevc copy |
| PlanProperties.TargetCodecIsTheTopRungs | packages/playback-engine/src/plan.ts:656-673 | The target codec is that of the first advertised rung of maximal bitrate, and the variant cap does not change it |
| PlanProperties.EngineMeetsContracts | packages/playback-engine/src/plan.ts:338-415 | The engine's own stages meet the contracts that the laws over arbitrary stages rest on |
| PlanProperties.EngineRoutingMeetsContracts | packages/playback-engine/src/plan.ts:607-616 | So do its ladder and its routing |
| PlanProperties.HdrIsNeverSentUnshown | packages/playback-engine/src/stages/hdr.ts:134-246 | HDR that the device cannot show is tone-mapped, refused or disabled, never sent as it is, and nothing else is tone-mapped |
| PlanProperties.AdvertisedRungsAreServable | packages/playback-engine/src/plan.ts:598-675 | Every advertised rung serves a configured row, and the encoder the plan names can encode it |
| PlanProperties.Av1IsSentInFmp4 | packages/playback-engine/src/plan.ts:326-336 | A plan that advertises an av1 rung is sent in fragmented mp4 |
| PlanProperties.Tier0Av1NeedsHardware | docs/PLAYBACK.md:2234-2249 | Properties 5 and 6 of the test matrix: at tier 0 no rung and no target codec is av1 without a verified hardware encoder, or on the software encoder |
| PlanProperties.NothingToRunExactlyWhen | packages/playback-engine/src/plan.ts:696-743 | The arguments are empty exactly for direct play, a refusal, a disabled transcode, and a video transcode with no configured rungs |
| Ledger.JobLedger.RecordQueued | packages/jobs/src/ledger.ts:110-124 | One transaction inserts the row and its event, or neither; an id that exists is refused |
| Ledger.JobLedger.RecordActive | packages/jobs/src/ledger.ts:126-142 | The row and event of a started attempt: a finish time is cleared, the attempt number kept when none is given |
| Ledger.JobLedger.RecordCompleted | packages/jobs/src/ledger.ts:144-154 | The row and event of a completion |
| Ledger.JobLedger.RecordRetrying | packages/jobs/src/ledger.ts:156-171 | The row and event of a non-terminal failure, which carry the same redacted message |
| Ledger.JobLedger.RecordFailed | packages/jobs/src/ledger.ts:173-185 | The row and event of a terminal failure, likewise |
| Ledger.JobLedger.Reconcile | packages/db/src/internal/jobs.ts:205-284 | The boot sweep, in one transaction |
| Ledger.TransitionsLeave | packages/jobs/src/ledger.ts:126-185 | Column by column, the row each transition leaves of the one it finds, and its one event |
| Ledger.SweepFailsIff | packages/db/src/internal/jobs.ts:168-284 | The sweep fails exactly the rows that are stale by their own status's limit, whatever order and repetition they are read in, and what it leaves of each |
| Ledger.ReplayRebuildsLedger | packages/jobs/src/ledger.ts:70-185 | After any calls, replaying the events rebuilds every row's type, status, attempts, last error and update time |
| Ledger.FinishTimesAgreeIff | packages/jobs/src/ledger.ts:126-185 | Every call keeps "finished exactly when a finish time is set", except a retry recorded on a finished row |
| Ledger.RetryOnSweptRowKeepsFinishTime | packages/jobs/src/ledger.ts:156-171 | Such a run: a swept job is delivered after all, and ends queued with a finish time |
| QueueStart.StartWithRetry | packages/jobs/src/queue.ts:158-174 | The retry loop: every attempt but the last failed with the interval to spare, it gives up only when the next would come too late, and it never does when the database comes up in time |
| QueueStart.TimesAddUp | packages/jobs/src/queue.ts:158-174 | When each attempt begins and ends, and which failed attempt is followed by another |
| QueueStart.StartMemo.EnsureStarted | packages/jobs/src/queue.ts:156-158 | A call joins the start that is memoised, or begins one |
| QueueStart.StartMemo.OnSettled | packages/jobs/src/queue.ts:184-199 | A rejected start clears the memo, a successful one leaves it |
| QueueStart.StartIsSharedAndRetried | packages/jobs/src/queue.ts:156-201 | In every run one start at a time is alive, no call is given one that has failed by then, and after one that worked no other begins |
| QueueStart.SuccessIsShared | packages/jobs/src/queue.ts:156-201 | Once an attempt has worked, every later call in every run is given that one and none begins another |
| QueueStart.FailureIsForgotten | packages/jobs/src/queue.ts:184-199 | Once one has failed, the next call begins another |
| JobQueue.Enqueue | packages/jobs/src/queue.ts:204-242 | The outcome and both stores for every failure of the insert, the send and the failure write |
| JobQueue.HandleBatch | packages/jobs/src/queue.ts:257-306 | The batch loop leaves the specified ledger, results and actions, and nothing in it throws |
| JobQueue.BatchResults | packages/jobs/src/queue.ts:258-305 | One result per fetched job, in order, whatever the ledger, the handler or the hook does |
| JobQueue.ResultAt | packages/jobs/src/queue.ts:259-303 | Each result is that of its own attempt, on the ledger its predecessors left |
| JobQueue.HooksFollowTerminalWrites | packages/jobs/src/queue.ts:275-302 | A hook runs only for a job with no retries left, and right after the attempt to write its failure |
| JobQueue.RowSaysWhatTheDriverDoes | packages/jobs/src/queue.ts:270-303 | When the failure write works, the row reads completed, queued or failed exactly as the driver will treat the result |
| QueueRuns.PublishedJobsHaveRows | packages/jobs/src/queue.ts:207-242 | In every run with crashes, expiries and failed writes: a published job has its row, and no hook runs twice or before the driver is through with the job |
| QueueRuns.FailedRowsAreFinal | packages/jobs/src/queue.ts:276-301 | A row says failed while the driver would dispatch again only after a send lost behind its publication or a boot sweep |
| QueueRuns.LostSendContradicts | packages/jobs/src/queue.ts:216-231 | Such a run of the first kind |
| QueueRuns.SweepContradictsIff | packages/db/src/internal/jobs.ts:168-284 | The sweep leaves a failed row whose job the driver may still run exactly when it fails the row of a job that waits, or that is being run with retries left |
| QueueRuns.FailedEarlyIffContradictsSoon | packages/jobs/src/queue.ts:277-288 | Such rows are exactly those that contradict the driver now or after one more step of the driver |
| QueueRuns.StepFailsEarlyIff | packages/jobs/src/queue.ts:204-306 | Of all steps of the protocol, exactly three bring such a row about: that sweep, a recorded send failure of a job that was published, and the publication of a job whose row was swept before |
| QueueRuns.FailedEarlyIffCaused | packages/jobs/src/queue.ts:204-306 | Over any run: some row is at some time failed while its job may still run exactly when one of the three causes occurs in the run |
| QueueRuns.EnqueueIsARun | packages/jobs/src/queue.ts:204-242 | One call of enqueue is a legal run of the protocol: the row commits before the job is sent |
| QueueRuns.LedgerAgreesWithDriver | packages/jobs/src/queue.ts:204-306 | When nothing is lost, the row of every job not being run says what the driver says |
| QueueRuns.HandlingIsARun | packages/jobs/src/queue.ts:258-305 | The batch handler's treatment of a job is a legal run of the protocol's steps, so the laws over runs hold of it |
| Ipv6Text.ParseIPv6ToBytes | packages/plugin-host/src/ssrf.ts:202-262 | The parser, its group loops and the byte fill compute the specified function |
| Ipv6Text.TextFormsParse | packages/plugin-host/src/ssrf.ts:202-262 | Every text form of section 2.2 of RFC 4291 (in full, with any `::`, with a dotted tail), in any case and with any zone, reads as its bytes |
| Ipv6Text.OnlyTextFormsParse | packages/plugin-host/src/ssrf.ts:202-262 | Nothing else is read |
| Ipv6Text.ParseIffTextForm | packages/plugin-host/src/ssrf.ts:202-262 | The two together |
| Ipv6Text.AnyZoneParsesAlike | packages/plugin-host/src/ssrf.ts:153-156 | A zone, whatever follows the first percent sign, changes nothing |
| Ipv6Text.FullTextRoundTrip | packages/plugin-host/src/ssrf.ts:202-262 | Writing sixteen bytes in full and reading them back |
| AddressPolicy.DisallowedIPv4IffDenied | packages/plugin-host/src/ssrf.ts:164-188 | The chain of comparisons is membership in a table of CIDR blocks |
| AddressPolicy.DisallowedIPv6IffDenied | packages/plugin-host/src/ssrf.ts:277-298 | The byte tests are membership in IPv6's own blocks and in every IPv4 block behind each of the four prefixes that carry an IPv4 address |
| AddressPolicy.CarriedAddressDecides | packages/plugin-host/src/ssrf.ts:284-295 | A mapped, compatible, NAT64 (section 2.1 of RFC 6052) or 6to4 address is refused exactly when the IPv4 address it carries is |
| AddressPolicy.JudgedByBytes | packages/plugin-host/src/ssrf.ts:300-316 | An IPv6 address is judged by its bytes in whichever text form it comes, and malformed text is refused |
| AddressPolicy.QuadJudgedByOctets | packages/plugin-host/src/ssrf.ts:164-188 | An IPv4 address as it is written is refused exactly when its octets lie in a denied block |
| AddressPolicy.NoQuadIsRefused | packages/plugin-host/src/ssrf.ts:164-170 | Another number of pieces, a piece that is not one to three digits, or a value above 255 is refused |
| AddressPolicy.AllowedIsOutside | packages/plugin-host/src/ssrf.ts:306-316 | An address of either kind is let through exactly when it is well formed and outside every denied block |
| AddressPolicy.ResolveAndValidateHost | packages/plugin-host/src/ssrf.ts:345-410 | The checks and the loop over resolved addresses compute the specified verdict |
| AddressPolicy.LiteralDialledIff | packages/plugin-host/src/ssrf.ts:345-377 | A literal, with or without brackets, is dialled exactly when an allowlist entry names it in either form, in any case, or it lies outside every denied block |
| AddressPolicy.NameDialledIff | packages/plugin-host/src/ssrf.ts:379-410 | A name is dialled exactly when it resolves, and an entry names it or every address it resolves to lies outside every denied block; a refusal speaks of a denied one |
| AddressPolicy.BracketsAreStripped | packages/plugin-host/src/ssrf.ts:158-162 | Only a pair of brackets around the whole name is taken off |
| AddressPolicy.ReadCapped | packages/plugin-host/src/ssrf.ts:547-573 | The capped reader gives the whole body if it fits, and otherwise stops with the first chunk that exceeds the cap |
| JwtSecret.SecretStores.Migrate | packages/secrets/src/migrate.ts:37-71 | Copy, read back, remove: the stores and the outcome for a crash after any number of writes |
| JwtSecret.SecretStores.ResolveJwtSecret | packages/secrets/src/jwt-secret.ts:119-152 | One boot's effects on both stores and what it gives, for a crash after any number of writes |
| JwtSecret.BootFailsIff | packages/secrets/src/jwt-secret.ts:94-152 | When a boot fails: a native store that does not answer, an ambiguous entry in the one looked into, or a copy that is lost |
| JwtSecret.BootMovesOrKeepsOrMints | packages/secrets/src/jwt-secret.ts:94-152 | What a boot that succeeds gives and what both stores hold then: a secret of the other store is moved, the own one is kept, or a new one is stored |
| JwtSecret.MigrationNeverLosesTheValue | packages/secrets/src/migrate.ts:37-71 | Cut short anywhere, and even if the target drops the write, the value is still readable in one of the stores |
| JwtSecret.BootKeepsSecretIff | packages/secrets/src/jwt-secret.ts:94-152 | A finished boot keeps the secret exactly when it is not one of those that mint another |
| JwtSecret.InterruptedBootHoldsUnlessTorn | packages/secrets/src/jwt-secret.ts:94-152 | A boot cut short keeps it as well, unless the crash falls between creating the secret file and filling it |
| JwtSecret.TornRecoversIff | packages/secrets/src/owner-only-file.ts:42-55 | After such a crash the next finished boot recovers the secret exactly when it is again forced onto the file with the native store readable |
| JwtSecret.SecretIsForever | packages/secrets/src/jwt-secret.ts:119-152 | Over any boots that mint nothing else, cut short anywhere, the same secret is given forever |
| JwtSecret.FirstSecretIsForever | packages/secrets/src/jwt-secret.ts:145-151 | What the first finished boot mints is that secret |
| JwtSecret.FallbackReplacesTheSecret | packages/secrets/src/jwt-secret.ts:94-152 | A boot in fallback gives a second secret, and the next native boot replaces the first with it |
| PgUpgrade.EmbeddedPostgres.Upgrade | packages/provisioning-pg/src/supervisor.ts:449-636 | The disk, the steps taken, the error with its flag and the version afterwards, for any outcome of each step |
| PgUpgrade.EmbeddedPostgres.RunSteps | packages/provisioning-pg/src/supervisor.ts:472-626 | The eight steps one after another until one fails; the new version is taken over after the swap |
| PgUpgrade.EmbeddedPostgres.RunStep | packages/provisioning-pg/src/supervisor.ts:460-470 | A step is recorded whether it succeeds or not |
| PgUpgrade.EmbeddedPostgres.RunBackup | packages/provisioning-pg/src/supervisor.ts:477-484 | The backup removes the old copy, copies, and checks for the version marker |
| PgUpgrade.EmbeddedPostgres.RunSwap | packages/provisioning-pg/src/supervisor.ts:603-612 | The swap removes the data directory and moves the new one there, or stops anywhere in between |
| PgUpgrade.StepsAreInOrder | packages/provisioning-pg/src/supervisor.ts:433-636 | The steps taken are a prefix of the canonical order, as long as the run up to the first failure |
| PgUpgrade.OnlyTheLastFails | packages/provisioning-pg/src/supervisor.ts:460-470 | Only the last step taken can have failed |
| PgUpgrade.StepHasItsEffect | packages/provisioning-pg/src/supervisor.ts:472-626 | What every step leaves in the data directory, the scratch directory and the backup, when it fails, and what it records |
| PgUpgrade.UpgradeSucceedsIff | packages/provisioning-pg/src/supervisor.ts:449-636 | Exactly when an upgrade gets through, and what it leaves in the three directories |
| PgUpgrade.RawFailuresComeBetween | packages/provisioning-pg/src/supervisor.ts:472-541 | Failures outside the steps come before the first and after the fourth |
| PgUpgrade.DataIsNeverLost | packages/provisioning-pg/src/supervisor.ts:449-636 | With the backup path apart: the data directory keeps its data until the swap, a complete copy always exists, the backup is one from its step on, a finished upgrade serves the same data, and the flag is true only when the old cluster is whole |
| PgUpgrade.BackupSparesClusterIff | packages/provisioning-pg/src/supervisor.ts:477-484 | The backup step leaves the cluster's files alone exactly when none lies at or below the backup path |
| PgUpgrade.OverlappingBackupLosesData | packages/provisioning-pg/src/supervisor.ts:477-484 | With the backup path at or around the data directory the cluster is deleted and reported intact |
| PgUpgrade.BackupInScratchIsCleared | packages/provisioning-pg/src/supervisor.ts:519-541 | With the backup path in the scratch directory the fourth step clears the backup and leaves the data directory alone |
| Supervisor.EmbeddedServer.BeginStart | packages/provisioning-pg/src/supervisor.ts:318-331 | Starting: the new process is tracked and its exit is not expected |
| Supervisor.EmbeddedServer.OnExit | packages/provisioning-pg/src/supervisor.ts:337-345 | The exit listener: an unexpected exit, of whichever process, begins a diagnosis and untracks |
| Supervisor.EmbeddedServer.FinishDiagnosis | packages/provisioning-pg/src/supervisor.ts:375-386 | The end of a diagnosis sets the status |
| Supervisor.EmbeddedServer.OnPollFailed | packages/provisioning-pg/src/supervisor.ts:349-355 | A start that is not answered in time kills what is still running |
| Supervisor.EmbeddedServer.GiveUpStart | packages/provisioning-pg/src/supervisor.ts:356-367 | And is given up |
| Supervisor.EmbeddedServer.OnServing | packages/provisioning-pg/src/supervisor.ts:369-373 | A start that worked is reported ready |
| Supervisor.EmbeddedServer.BeginStop | packages/provisioning-pg/src/supervisor.ts:406-417 | Stopping: a kill, or nothing to stop |
| Supervisor.EmbeddedServer.FinishStop | packages/provisioning-pg/src/supervisor.ts:418-431 | The end of a stop, in time or not |
| Supervisor.OperationsGoOn | packages/provisioning-pg/src/supervisor.ts:318-431 | Every operation goes on to its end, and what is killed: a start that is not answered unless its process ended with a code, and a tracked process that did not |
| Supervisor.ExitsAreRecorded | packages/provisioning-pg/src/supervisor.ts:337-345 | An exit is recorded of that process alone, and begins a diagnosis exactly when none was expected |
| Supervisor.LosesIffLetsGo | packages/provisioning-pg/src/supervisor.ts:318-431 | In every interleaving of operations and exits, a step leaves a running process untracked exactly when it starts again over one or gives up on a kill |
| Supervisor.CarefulRunsLoseNothing | packages/provisioning-pg/src/supervisor.ts:318-431 | So over whole runs without such steps, nothing runs but the tracked process |
| Supervisor.ReadyMeansRunningUnlessTooLate | packages/provisioning-pg/src/supervisor.ts:347-386 | When all is quiet, "ready" means that the tracked server runs, exactly unless it was reported after its crash had been diagnosed |
| Supervisor.ReadyWithoutAServer | packages/provisioning-pg/src/supervisor.ts:347-386 | Such a run from any quiet state: reported ready for good with nothing running |
| Supervisor.LateExitLosesTheServer | packages/provisioning-pg/src/supervisor.ts:337-386 | The exit of a process given up on, heard after the next start, makes the supervisor lose the new server |
| RedactPaths.NothingLeftToRedact | packages/shared/src/redact-paths.ts:60-93 | The bare-path rule leaves no absolute path behind a boundary its pattern knows |
| RedactPaths.RedactionIsSkipped | packages/shared/src/redact-paths.ts:115-116 | What stands for a redacted path is never matched, whatever precedes and follows it |
| RedactPaths.BareRuleIsIdempotent | packages/shared/src/redact-paths.ts:60-93 | The bare-path rule is idempotent on every line for every decision |
| RedactPaths.LinesAreClean | packages/shared/src/redact-paths.ts:124-168 | The same absence after all four rules, whichever fire |
| RedactForms.BasenameIsLast | packages/shared/src/redact-paths.ts:42-56 | The basename of a path is its last name, whatever stands in front of that name's separator and however many separators follow |
| RedactForms.OnlyTheNameIsPut | packages/shared/src/redact-paths.ts:99-101 | The jobs copy puts that name alone for every path, the shared copy for those its caller decides to redact |
| RedactForms.AbsoluteBeginnings | packages/shared/src/redact-paths.ts:69-74 | What begins an absolute path |
| RedactForms.NothingElseBegins | packages/shared/src/redact-paths.ts:69-74 | Nothing else begins one |
| RedactForms.BlanksAreKeptIff | packages/shared/src/redact-paths.ts:76-86 | Blanks inside a path belong to it exactly when the token behind them holds a separator |
| RedactForms.LonePathKeepsItsName | packages/shared/src/redact-paths.ts:124-168 | A line that is one path keeps nothing of it but its last name |
| RedactForms.PathInText | packages/shared/src/redact-paths.ts:88-93 | A path behind white space, an opening bracket, an equals sign or a comma: it alone is replaced |
| RedactForms.UnboundedIsKept | packages/shared/src/redact-paths.ts:88-93 | Text in which no path follows a boundary stays as it is |
| RedactForms.QuotedPath | packages/shared/src/redact-paths.ts:150-158 | A quoted path, blanks and brackets inside it and all: it alone is replaced |
| RedactForms.OddSchemeIsKept | packages/shared/src/redact-paths.ts:150-158 | A quoted file URL whose scheme is not all lower-case is left as it stands: the quoted rule wants lower case and the bare rule sees no boundary |
| RedactForms.ParenFramePath | packages/shared/src/redact-paths.ts:125-132 | A parenthesised stack frame keeps its position and the line around it |
| RedactForms.BareFramePath | packages/shared/src/redact-paths.ts:134-148 | So does a line that is one bare stack frame |
| RedactForms.BrokenFrameIsNone | packages/shared/src/redact-paths.ts:134-148 | A line end of any kind inside what would be its path makes it no frame |
| RedactForms.LineByLine | packages/shared/src/redact-paths.ts:117-122 | Every line is redacted for itself |
| RedactPaths.JobsCopyIsSharedCopy | packages/jobs/src/redact-paths.ts:101-142 | On every text the jobs copy equals the shared one with a decision that is always true |
| RedactTwice.PassOverClean | packages/shared/src/redact-paths.ts:124-168 | Over a line without a bare path a pass changes nothing exactly when it holds no quoted path: no frame rule fires, and no rule undoes what an earlier one replaced |
| RedactTwice.LineTwiceIff | packages/shared/src/redact-paths.ts:117-168 | When redacting every path of a line twice is redacting once, for all lines: the line is one frame, or no quote is left open in the text that reaches the bare-path rule |
| RedactTwice.OneKindTwiceIff | packages/shared/src/redact-paths.ts:150-158 | On a line with one kind of quote: exactly when no quoted path shares its closing quote with a marker behind it |
| RedactTwice.SharedQuoteNeedsTwoPasses | packages/shared/src/redact-paths.ts:150-158 | Whole lines are not idempotent: any two paths that share a quote take two passes |
| RedactTwice.OneLineNeedsTwoPasses | packages/shared/src/redact-paths.ts:150-158 | For one, the line `'/a'/q'` |
| Tray.ShutdownConfirm.Click | installers/linux/tray/internal/control/confirm.go:48-58 | A click proceeds when armed in time and disarms, or arms |
| Tray.ProceedsIffConfirmedInTime | installers/linux/tray/internal/control/confirm.go:43-63 | A click shuts down exactly when the click before it armed the item less than the window ago |
| Tray.MenuCache.Draw | installers/linux/tray/app_linux.go:360-421 | One render pass makes menu and cache the target, with one write per field that differs |
| Tray.NothingToDraw | installers/linux/tray/app_linux.go:408-421 | A render that changes nothing writes nothing |
| Tray.OneWriteADifference | installers/linux/tray/app_linux.go:408-421 | The writes of a render are as many as the fields that differ |
| Tray.CacheIsTheMenu | installers/linux/tray/app_linux.go:349-421 | In every interleaving the cache equals the real menu whenever the render lock is free |
| Tray.RenderDrawsItsSnapshot | installers/linux/tray/app_linux.go:349-406 | A finished render has drawn exactly the snapshot it took |
| Tray.MenuTellsWhatRuns | installers/linux/tray/app_linux.go:349-406 | In every interleaving a snapshot shows where both goroutines are: neither item can be clicked while either is at work, and the titles say which |
| Tray.ItemSaysWhatAClickDoes | installers/linux/tray/app_linux.go:505-526 | The shutdown item can be clicked and asks for confirmation exactly when the next click shuts down |
| Tray.ShutdownTakesTwoClicks | installers/linux/tray/internal/control/confirm.go:43-63 | In every interleaving, the click that begins a shutdown follows another by less than ten seconds |
| Tray.FailedShutdownAsksAgain | installers/linux/tray/internal/control/confirm.go:48-58 | After a failed shutdown the item asks from the start again |
| Tray.ShutdownNeverBeginsDuringStart | installers/linux/tray/app_linux.go:505-526 | A shutdown begins only on a confirmed click, never while a start is in flight |
| Tray.OverlapNeedsTheWindow | installers/linux/tray/app_linux.go:431-526 | Both are in flight only after a shutdown that began between a start's busy check and its lock |
| Tray.WindowLeadsToOverlap | installers/linux/tray/app_linux.go:431-486 | From that window both are in flight one step later |
| Tray.WindowIsReached | installers/linux/tray/app_linux.go:431-526 | A run that reaches it |
| Tray.LastDrawnWins | installers/linux/tray/app_linux.go:349-361 | Of two renders waiting for the lock the one drawn last wins, however old its snapshot, until the next render |
| ConfigSchema.BoundsIff | packages/plugin-protocol/src/json-schema-subset.ts:349-383 | The check passes exactly when every node reachable through properties or items, whatever its type, is within the depth and the caps |
| ConfigSchema.ViolationIsReal | packages/plugin-protocol/src/json-schema-subset.ts:349-383 | A reported violation names a node that is there and a bound it breaks, with its path |
| ConfigSchema.CapsAre | packages/plugin-protocol/src/json-schema-subset.ts:349-383 | The caps of one node: at most 200 options, 200 required names and 200 properties, whatever else it holds |
| ConfigSchema.PathJoinsKeys | packages/plugin-protocol/src/json-schema-subset.ts:349-383 | A reported path is the keys on the way with dots between |
| ConfigSchema.Frames | packages/plugin-protocol/src/json-schema-subset.ts:349-383 | At most nine frames of the check are nested, on any input |
| ConfigSchema.FramesAre | packages/plugin-protocol/src/json-schema-subset.ts:349-383 | A node's frames are one more than those of the deepest node below it |
| Manifest.Walker.Walk | packages/plugin-protocol/src/json-schema-subset.ts:246-287 | The recursive walk appends exactly the offending paths, in order |
| Manifest.FindInconsistentDefaults | packages/plugin-protocol/src/json-schema-subset.ts:243-291 | The default check returns those of the whole schema |
| Manifest.FindSecretBelowRoot | packages/plugin-protocol/src/json-schema-subset.ts:195-229 | The secret check returns those below the root's own fields |
| Manifest.DefaultsConsistentIff | packages/plugin-protocol/src/json-schema-subset.ts:231-291 | It finds none exactly when every field at any depth would accept its own default as a value |
| Manifest.SecretsAreTopLevelIff | packages/plugin-protocol/src/json-schema-subset.ts:172-229 | It finds none exactly when every secret field, at any depth, is a property of the root |
| Manifest.TopLevelSecretsExactly | packages/plugin-protocol/src/json-schema-subset.ts:165-169 | The host's list names exactly the secret properties of the root |
| Manifest.ParseLppManifest | packages/plugin-protocol/src/envelope.ts:120-186 | The staged parse computes the specified result |
| Manifest.RejectionNamesTheFirstFailure | packages/plugin-protocol/src/envelope.ts:105-186 | A rejection names the first stage that fails, and a manifest that no stage fails is accepted |
| Manifest.AcceptedSchemasAreSafe | packages/plugin-protocol/src/envelope.ts:142-185 | An accepted schema is bounded, every default fits its field, and every secret is a top-level field that the host lists |
| Signature.ParseLppSignatureHeader | packages/plugin-protocol/src/signature.ts:73-88 | The segment loop over a map computes the specified parse |
| Signature.AnyArrangementParses | packages/plugin-protocol/src/signature.ts:69-88 | Any order of the two members, with anything else between them, parses to the signed values |
| Signature.SignedHeaderVerifiesInWindow | packages/plugin-protocol/src/signature.ts:107-132 | Such a header verifies exactly when the clock is within the window, and otherwise the verdict says on which side it fell |
| Signature.SignThenVerify | packages/plugin-protocol/src/signature.ts:57-132 | In particular what the signer makes |
| Signature.VerdictIsExact | packages/plugin-protocol/src/signature.ts:107-132 | For any header that carries a time and a signature, and any body: a mismatch exactly when the signature is not the MAC of the time, a dot and that body, and otherwise valid, stale or early by the window |
| Signature.SignedForNothingElse | packages/plugin-protocol/src/signature.ts:107-132 | A signer's header is accepted for no other body or secret whose MAC differs |
| Signature.UnreadableIsRefused | packages/plugin-protocol/src/signature.ts:69-117 | A header without a time or a signature, or whose signature is empty or no hex, is malformed; none at all is missing |
| Signature.HexPlaces | packages/plugin-protocol/src/signature.ts:57-66 | Each byte of the digest is two lower-case hex digits, the high half first |
| Signature.HexBytesRoundTrip | packages/plugin-protocol/src/signature.ts:119-125 | The digest's hex reads back as its bytes, and a lone digit behind it changes nothing |
| Signature.TimestampReadsBackIff | packages/plugin-protocol/src/signature.ts:69-88 | Whatever digits the last timestamp member holds, none included, the header parses; the time read, written out, is the member exactly when that is not empty and has no leading zero |
| Signature.OtherTextIsReadAsNumeral | packages/plugin-protocol/src/signature.ts:69-88 | A timestamp member that is neither empty nor exact digits parses exactly when it is a numeral, with that time |
| Signature.EmptyTimestampIsZero | packages/plugin-protocol/src/signature.ts:80-87 | An empty timestamp member is read as zero |
| LinkSealing.Base64UrlRoundTrip | packages/secrets/src/link-sealing.ts:78-88 | base64url (section 5 of RFC 4648) of any bytes reads back as them |
| LinkSealing.Alphabet | packages/secrets/src/link-sealing.ts:78-88 | Its alphabet, in the order of section 5 of RFC 4648 |
| LinkSealing.SameBits | packages/secrets/src/link-sealing.ts:78-88 | Four characters spell the number that their three bytes spell |
| LinkSealing.EncodedShape | packages/secrets/src/link-sealing.ts:78 | One character of the alphabet for every six bits and for the remainder, and no padding |
| LinkSealing.OthersAreSkipped | packages/secrets/src/link-sealing.ts:86-88 | A character outside both base64 alphabets is skipped wherever it stands |
| LinkSealing.Utf8RoundTrip | packages/secrets/src/link-sealing.ts:76-95 | Text written as UTF-8 and read back has its lone surrogates replaced and is otherwise the same |
| LinkSealing.RepairedIff | packages/secrets/src/link-sealing.ts:76-95 | That changes a text exactly when it has a lone surrogate |
| LinkSealing.BadLeadIsReplaced | packages/secrets/src/link-sealing.ts:95 | Bytes that are no UTF-8 are replaced one malformed sequence at a time |
| LinkSealing.KeptUnlessReplaced | packages/secrets/src/link-sealing.ts:95 | Replacement is the only loss: bytes read without a replacement character are the UTF-8 of the text read, so overlong forms and encoded surrogates are never read |
| LinkSealing.UnsealSealed | packages/secrets/src/link-sealing.ts:73-99 | Unsealing what was sealed gives the text with lone surrogates replaced, so exactly the text when it is well-formed |
| LinkSealing.UnsealsIff | packages/secrets/src/link-sealing.ts:82-99 | What becomes of any token of four pieces: malformed by version, IV or tag, not authentic when the cipher does not open it, and otherwise its text |
| LinkSealing.OtherPiecesAreMalformed | packages/secrets/src/link-sealing.ts:82-90 | Any other number of pieces is malformed |
| LinkSealing.SealedIs | packages/secrets/src/link-sealing.ts:73-80 | A sealed token is its version, IV, ciphertext and tag with dots between |
| DbMigrate.Database.ApplyMigrationFile | packages/db/src/migrate.ts:62-81 | A file's SQL and its bookkeeping row commit together or not at all |
| DbMigrate.Database.RunPendingMigrations | packages/db/src/migrate.ts:84-110 | One run, interrupted anywhere, and the number of files it counts |
| DbMigrate.RunCommitsAPrefix | packages/db/src/migrate.ts:97-104 | However a run ends, it committed a first part of what was pending, and all of it if it finished |
| DbMigrate.RunStopsOnlyFor | packages/db/src/migrate.ts:97-104 | A run dies only with files still pending, fails only on the next pending file and only when its SQL fails on the schema reached, and otherwise finishes |
| DbMigrate.RunReplays | packages/db/src/migrate.ts:97-104 | Each commit runs the SQL of the next pending file and books it |
| DbMigrate.EachFileCommitsOnce | packages/db/src/migrate.ts:84-110 | Over any number of interrupted runs: each file commits at most once, the bookkeeping is the set of committed files, and the schema is what they make |
| DbMigrate.SchemaFollowsNameOrder | packages/db/src/migrate.ts:44-46 | When releases only append names, the files committed are the first ones in name order, and all of them after a finished run |
| DbMigrate.InOrderIffAppended | packages/db/src/migrate.ts:97-104 | A finished run leaves name order exactly when what was committed before were the first names |
| DbMigrate.LaterNamesAppend | packages/db/src/migrate.ts:27-46 | Sorted lists grow at the end when every new name sorts after every old one |
| DbMigrate.FinishedRunRepeatsIff | packages/db/src/migrate.ts:92-104 | A finished run leaves each file committed once exactly when the bookkeeping it read lists every one of its files that is committed |
| DbMigrate.RepeatsIffBothCommit | packages/db/src/migrate.ts:62-110 | At every moment of every interleaving of two runners, no file is committed twice exactly when there is none that both have committed |
| DbMigrate.TwoRunnersCommitOnceIff | packages/db/src/migrate.ts:92-104 | When both have finished: exactly when one of them found nothing to apply when it read the bookkeeping |
| DbMigrate.ConcurrentRunnersApplyTwice | packages/db/src/migrate.ts:66-74 | Two runners that read the bookkeeping before either commits run a repeatable file twice |
| Uuid.WriteTimestampMs | packages/shared/src/ids.ts:24-33 | The in-place loop writes the 48-bit timestamp, big end first, and nothing else |
| Uuid.ToHex | packages/shared/src/ids.ts:35-41 | The loop writes two digits a byte |
| Uuid.SharedUuidv7 | packages/shared/src/ids.ts:62-76 | The shared copy computes the specified text |
| Uuid.JobsUuidv7 | packages/jobs/src/ids.ts:32-63 | The jobs copy computes the same text |
| Uuid.TimestampDecodes | packages/shared/src/ids.ts:24-76 | The first 48 bits of the text decode back to every timestamp below 2^48 |
| Uuid.EarlierSortsFirst | packages/shared/src/ids.ts:58-76 | A smaller timestamp gives a lexicographically smaller text, whatever the random bytes |
| Uuid.GeneratedIsVersion7 | packages/shared/src/ids.ts:70-81 | The text has version 7 and the variant of section 5.7 of RFC 9562, and passes the repository's own check |
| Uuid.IsUuidIff | packages/shared/src/ids.ts:20-22 | What the check accepts, exactly: five groups of hexadecimal digits in either case, a version from 1 to 8, the RFC's variant |
| Uuid.SameTextIffSameRandomness | packages/shared/src/ids.ts:62-76 | Within one millisecond two texts are the same exactly when the random bytes agree on the 74 bits that are neither version nor variant |
| FfmpegFailure.ClassifyFfmpegFailure | packages/shared/src/ffmpeg-failure.ts:164-185 | The nested search computes the specified classification |
| FfmpegFailure.CodeIsHighestPriority | packages/shared/src/ffmpeg-failure.ts:167-184 | The code is that of the first rule in the table that any line matches, and of the signal otherwise |
| FfmpegText.CodeIsByMessage | packages/shared/src/ffmpeg-failure.ts:70-173 | The code a text is given: by the first of the listed messages that stands on any of its lines, and without any by how the process ended |
| FfmpegText.FiresIffMessage | packages/shared/src/ffmpeg-failure.ts:70-128 | Each rule fires exactly on the lines that hold one of its messages, in any case of letters |
| FfmpegText.AroundMatchesIff | packages/shared/src/ffmpeg-failure.ts:93-115 | A pattern of two parts matches exactly the lines that hold both in this order with no line end between |
| FfmpegText.HasMatchesIff | packages/shared/src/ffmpeg-failure.ts:70-128 | A pattern of one text matches exactly the lines that hold it |
| FfmpegText.LineThen | packages/shared/src/ffmpeg-failure.ts:152-154 | Lines end at CR LF, CR or LF |
| FfmpegText.DetailIsOfTheFirstLine | packages/shared/src/ffmpeg-failure.ts:164-173 | The detail is that of the first line the deciding rule matches |
| FfmpegFailure.CodeIgnoresLineOrder | packages/shared/src/ffmpeg-failure.ts:164-185 | Reordering the lines does not change the code |
| FfmpegFailure.DetailIsShowable | packages/shared/src/ffmpeg-failure.ts:145-150 | A detail has at most 200 characters, none of them control characters, and no slash before anything but a delimiter |
| FfmpegText.PathIsShortened | packages/shared/src/ffmpeg-failure.ts:130-150 | Of a path nothing is shown but its last name, and the text around it is kept |
| FfmpegText.PathBeginsIff | packages/shared/src/ffmpeg-failure.ts:130-150 | What begins an absolute path: a slash, two backslashes or a drive |
| FfmpegText.PlainLineIsShown | packages/shared/src/ffmpeg-failure.ts:145-150 | A line without control characters and separators is shown as it is, trimmed and cut at 200 |
| FfmpegText.ControlsGo | packages/shared/src/ffmpeg-failure.ts:145-147 | Control characters go, and nothing else does |
| FfmpegFailure.DetailNamesNoPath | packages/shared/src/ffmpeg-failure.ts:130-150 | For every line, exactly when the detail names an absolute path of any kind: when a path token of the scan ends directly before a colon and a backslash that are copied, what was written by then ends in a letter, and something other than a delimiter follows before the cut |
| FfmpegFailure.GenericWrapperDecidesLast | packages/shared/src/ffmpeg-failure.ts:120-185 | In the table of rules: the generic input-open rule decides only when no specific rule fires on any line |
| FfmpegFailure.DriveCanBeLeft | packages/shared/src/ffmpeg-failure.ts:130-150 | A line for which a drive path is left |

## Left out

- Stage B's comparison of codecs, profiles and levels, and the construction of ffmpeg arguments: both are arbitrary functions, the first under its stage contract.
- Free-text details of plan reasons, except the rungs that the variant cap names.
- Ladder.CapAdvertisedVariants: compares distances to the geometric mean exactly, where the source compares floating-point logarithms.
- The audio and subtitle sides of a plan beyond what the decision, a disabled transcode and the stage contracts need.
- Ledger.JobLedger.Reconcile: the rows that the locked reads return, their order and the row cap are an input; each is checked again before it is written.
- The queue driver's internals: fetching, retrying, expiry and lost replies are steps of the environment.
- Priority, subject and creation columns of ledger rows, and the registration of consumers (`work`, `ready` and `stop` as calls).
- JobQueue.Enqueue: its contract gives the final stores and the outcome; the order of its effects is stated by `QueueRuns.EnqueueIsARun`.
- QueueStart.StartWithRetry: durations are inputs; creating the queues after the start is part of what an attempt's memo may fail on.
- DNS, sockets, redirects, schemes, request timeouts and response headers: a fetch is its outcome.
- The runtime's own test for what is an IP address: an arbitrary function of the text.
- Signature.ParseLppSignatureHeader: the full grammar of JavaScript's `Number` is not written out; a timestamp that is neither empty nor digits up to the greatest safe integer goes to an arbitrary function.
- Cryptography: the cipher is any pair in which opening undoes sealing, the digest any function to bytes, random bytes are inputs.
- Percent-decoding: an arbitrary function.
- RedactTwice.OneKindTwiceIff: on lines with both kinds of quote, or where percent-decoding brings quotes in, the condition is stated by `RedactTwice.LineTwiceIff` on the text that reaches the bare-path rule, not on the line itself.
- RedactTwice.LineTwiceIff: is about redacting everything; callers that decide path by path are covered by `RedactPaths.BareRuleIsIdempotent` alone.
- Unicode case folding and Unicode white space in patterns beyond the characters the patterns name.
- Manifest.ParseLppManifest: the issues of the schema library and the lists of unknown and duplicate capability types are not part of a rejection here; broken bounds and offending paths are.
- The shape checks of manifest envelopes, capabilities and fields: arbitrary functions; an accepted schema is required to mirror the JSON it came from.
- PostgreSQL itself: the upgrade assumes that a server leaves the data of its directory as it was, that a dump restores cleanly to the same data, and that migrations do not end the transaction they run in.
- PgUpgrade.EmbeddedPostgres.Upgrade: the restart step's outcome is an input; the supervisor's own state machine is the `Supervisor` module, with one operation awaited before the next.
- Supervisor.ReadyMeansRunningUnlessTooLate: provisioning is a single step, and a process that cannot be spawned at all is not modelled.
- File permissions, directory fsync and the layout of secret files on Windows, except that a secret file is created before it is filled.
- Uuid.SharedUuidv7: whole, non-negative timestamps; those of 2^48 and above wrap as the loop makes them, and the order and decoding laws stop there.
- FfmpegFailure.GenericWrapperDecidesLast: the table's patterns are literal texts, or two of them in one line, in either case of ASCII letters.
- The tray's stop through the control channel, its notifications and its opening of the web page, which touch neither the flags nor the cache.
- Fixed tables, error texts, logging and its throttling, and wiring between packages.
