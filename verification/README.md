# A verified model of the demo analysis and replay core

A Dafny model of the parts of this repository where several steps have to fit together: the ARPL v2
replay encoder and its browser decoder, the concurrency protocols around the game session, the
analysis tasks and the Take attachment, the construction of replay frames, the folds over demo events,
the demo envelope scanners, and the planning of cosmetic rewrites. `dafny verify dfyconfig.toml` checks
the whole project.

Each source loop or object is a Dafny method or class, proved against a specification that does not
mention it; lemmas then say what the specification means, over every input or every run. For each component
at least one of them says what comes out in terms of what went in alone, without the functions that the
specification is made of; these lemmas are named for it, as in `RepairMeans` and `EffectShows`.

| files | what they model |
|---|---|
| `Results`, `Bytes`, `Texts`, `Sets`, `Sorting` | fallible results; little-endian and base-128 numbers (LEB128, section 7.6 of DWARF 5, and the zigzag form of the Protocol Buffers encoding specification); decimal and hexadecimal texts, separators and the order of texts; sizes of sets; the stable library sort |
| `ReplayPayloads`, `ReplayTables`, `ReplayWire`, `ReplayRoundTrip`, `ReplayCodec`, `ReplayExactness`, `ReplayEncoder`, `ReplayAcceptance`, `ReplayFidelity`, `WireLayout` | ARPL v2: the payload and its grid, the interning pass, the layout and the browser's reader, their round trip, the exact condition for it, and the encoder; which recordings it takes, what the viewer sees of them, and where every field lies in the body |
| `RuntimeSession`, `AnalysisTasks`, `TakeAttachment` | three protocols as step systems with their objects |
| `UtilityLifecycles`, `EffectSweep`, `RenderedFrames`, `Flights`, `FlightFrames`, `EffectIds`, `Sampling`, `RoundFrames`, `RosterEvidence` | replay construction: pairing utility events, the sweep over frames, projectile lifetimes, which swept frames the encoder takes, sampling and alignment, the snapshot reader and selected-round frames; what the frames show, told from events, snapshots and rows |
| `CompetitiveRounds`, `RoundAlternation`, `RoundSelection`, `RoundStats`, `RoundReports`, `SpectatorSlots`, `SlotHistory`, `MultiKills`, `Clutches`, `Highlights` | folds over the events of a demo, and what they say, told from the events |
| `DemoEnvelope`, `DemoFiles`, `CosmeticPlan`, `RewritePlans` | frame scanners, tail repair and bounded output, and what they do to the bytes of a file; the rewrite planner, and what it does to the fields of an entity |

## Findings

Where a property one would expect is false of the code, the model keeps the code and states when it holds.

- The body of a replay comes back exactly if and only if no text begins with a byte-order mark, no player id
  is empty, and the size in the cache metadata is at most 2^53 - 1: the browser's text decoder drops the mark,
  and its reader refuses an empty id and a size it cannot represent, all of which the encoder accepts
  (`ReplayExactness.RecoversExactly`). The layout itself loses nothing: the body of any accepted payload
  determines all its frames on the grid (`ReplayExactness.BodyDeterminesFrames`).
- A spectator-slot conflict can be forgotten: an update of another player that carries the player's id as
  its second Steam id takes over the record under that id, and the player's next update clears the conflict
  (`SpectatorSlots.ConflictForgotten`). What the resolver sees of a conflict is gone after an update if and
  only if that update is filed under every alias of the player, or is the player's own, finds no conflict
  under the player's id, and brings no slot that is out of range or contradicts the one it finds there
  (`SpectatorSlots.ConflictSurvivesIff`).
- The receipts that a Take attachment reads are those of its run and of every later one, as the comment in
  `crates/storage/src/repository/projects.rs` says and the name of the query does not. So attachments to one
  clip ascend strictly in the order of the runs, which is stronger than once per run
  (`TakeAttachment.AttachesAtMostOnce`).
- The boundaries of the selected events are start and end of one round after the other if and only if the
  paired rounds are disjoint in time, whatever the order of their numbers
  (`RoundAlternation.AlternatesIffDisjoint`). The sort is idle if and only if they also follow each other in
  the order of their numbers (`CompetitiveRounds.LaidOutIffInOrder`).
- The cursor of the selection never goes back. Any other event is selected, as often as it occurs, if and only
  if it lies within some round and is before neither the start nor the end of any round of a lower number
  (`CompetitiveRounds.OthersAreConserved`); an event within a round can be lost
  (`CompetitiveRounds.LostEvent`), though not if the rounds follow each other in the order of their numbers
  (`CompetitiveRounds.InOrderIsComplete`).
- After a refused seek the bounded writer measures from the wrong position, and a write can pass the bound
  (`DemoEnvelope.AfterARefusedSeek`). The output fits the bound if and only if no admitted write takes a byte
  after a refused seek without an accepted seek in between (`DemoEnvelope.OutputFitsIff`). Its flag is up
  whenever that happens, so that the caller discards such an output (`DemoEnvelope.FlagIsRefusal`).
- A projectile whose detonation is at tick 0 is still shown at tick 0 (`Flights.ShownAtItsDetonation`), the
  only case of a flight shown at or after its detonation (`Flights.WithinLifetime`).
- The sweep can show two effects of one kind, key and start tick at once (`EffectIds.TwoDetonationsClash`),
  and the encoder refuses a frame in which an id repeats. A swept frame passes the encoder's check of ids and
  lifetimes if and only if no two such effects show at its tick; flights never stand in the way
  (`EffectIds.RenderedFramePassesIff`, `EffectIds.FlightsAreInFlight`).
- Two patches of a valid request can match one entity if and only if the entity names an account in 1 to
  2^32 - 1, since two owners can have one account (`CosmeticPlan.TwoMatchIff`). For requests whose owners all
  differ in their accounts, they can if and only if the entity's original owner is also there, could be an
  owner, and has another account (`CosmeticPlan.TwoMatchIffConflict`). In both cases the order of the patches
  can decide about the rewrite if and only if the entity also has one of the cosmetic fields
  (`CosmeticPlan.OrderDecidesIff`, `CosmeticPlan.OrderDecidesIffConflict`).

## Model

| member | source | states |
|---|---|---|
| Bytes.ZigZagRoundTrip | crates/application/src/replay_binary.rs:68-71 | the zigzag map and its inverse undo each other on all integers |
| Bytes.VarBytesLength | crates/application/src/replay_binary.rs:72-76 | a shortest base-128 form has at most n bytes exactly if the value is below 128 to the n |
| ReplayPayloads.CoordinateError | crates/application/src/replay_binary.rs:84-91 | a coordinate in bounds is sent with an error of at most 1/32 |
| ReplayPayloads.AngleError | crates/application/src/replay_binary.rs:97-103 | an angle in bounds is sent with an error of at most 1/256 of a degree, up to whole turns |
| ReplayPayloads.InputMaskRoundTrip | crates/application/src/replay_binary.rs:140-153 | the input mask is injective, and the absent input, 65535, is no mask of an input |
| ReplayTables.ScanFramesKeeps | crates/application/src/replay_binary.rs:167-235 | the first pass leaves tables without duplicates and within their bounds that hold every string and identity of every frame |
| ReplayTables.FrameIsCovered | crates/application/src/replay_binary.rs:236-299 | whatever the second pass looks up for any frame was interned: no lookup can miss |
| ReplayTables.SentinelIsFree | crates/application/src/replay_binary.rs:132-137 | no string index is the 65535 that stands for an absent string |
| ReplayRoundTrip.DeltaFits | crates/application/src/replay_binary.rs:68-81 | between two coordinates in bounds a delta has one to four bytes, so its overflow error is unreachable |
| ReplayRoundTrip.PositionRoundTrip | apps/web/src/data/replayBinary.ts:31-51 | the reader, starting from the same predictor, recovers the position and stops behind it |
| ReplayRoundTrip.FrameRoundTrip | apps/web/src/data/replayBinary.ts:123-174 | one frame is read back, and reader and writer end with the same predictors |
| ReplayRoundTrip.FramesRoundTrip | apps/web/src/data/replayBinary.ts:121-175 | any number of frames is read back, every predictor mirrored over the whole run |
| ReplayCodec.DecodeOfBody | apps/web/src/data/replayBinary.ts:55-177 | for every accepted payload, reading the body gives all frames on the grid with decoded strings, or a refusal exactly if the decoded tables are ambiguous or the cache metadata has a size above 2^53 - 1 |
| ReplayExactness.RecoversExactly | crates/application/src/replay_binary.rs:155-311 | the client recovers every frame, coordinates to 1/16 and angles to 1/128, if and only if no text begins with a byte-order mark, no player id is empty and the cached size is representable |
| ReplayFidelity.ViewerSeesTheRecording | crates/application/src/replay_binary.rs:155-311 | decoding the body gives a recording of which every frame, player, projectile and bomb is field by field that of the payload, coordinates within 1/32 and angles within 1/256 of a degree up to turns, if and only if no text begins with a byte-order mark, no player id is empty and the cached size is representable |
| ReplayAcceptance.AcceptedIff | crates/application/src/replay_binary.rs:155-299 | which payloads are accepted, told from the payload: ticks ascend, at most 64 players and 512 projectiles a frame with different ids, the budgets of records, one name and team per player and at most 64 of them, at most 16384 texts of at most 512 bytes, values in bounds, metadata that describes the frames, and a body of at most 128 MiB |
| WireLayout.BodyLayout | crates/application/src/replay_binary.rs:221-237 | the two metadata texts, each behind its 32-bit length, open the body |
| WireLayout.TablesLayout | crates/application/src/replay_binary.rs:224-236 | the number of texts and the texts, then the number of players and the players |
| WireLayout.TextLayout | crates/application/src/replay_binary.rs:52-58 | a text is its 16-bit length and its bytes |
| WireLayout.IdentityLayout | crates/application/src/replay_binary.rs:231-236 | a player in the table is the index of the id, that of the name, and the side |
| WireLayout.FrameLayout | crates/application/src/replay_binary.rs:241-296 | tick, number of players, players, number of projectiles, projectiles, and a bomb or a zero, at their offsets |
| WireLayout.PlayerLayout | crates/application/src/replay_binary.rs:245-258 | roster index, the three coordinate differences, and the state |
| WireLayout.StateLayout | crates/application/src/replay_binary.rs:249-257 | yaw, pitch, health, armor, alive, weapon and inputs at their eleven bytes |
| WireLayout.ProjectileLayout | crates/application/src/replay_binary.rs:263-289 | ids and flags in front, the coordinate differences, and radius and lifetime in the last twelve bytes |
| WireLayout.BombLayout | crates/application/src/replay_binary.rs:290-295 | a one, the coordinate differences, the state and the carrier |
| WireLayout.InputLayout | crates/application/src/replay_binary.rs:140-153 | each of the ten inputs has its own bit, and all bits are set if the inputs are not known |
| WireLayout.FrameIsWrittenAgainst | crates/application/src/replay_binary.rs:238-296 | over any run of frames, the next frame is written against what the encoder knows after all before it |
| WireLayout.PlayerIsMeasuredFrom | crates/application/src/replay_binary.rs:238-248 | that is, for each player, the position in the last frame that showed him, and the origin before that |
| WireLayout.ProjectileIsMeasuredFrom | crates/application/src/replay_binary.rs:271-274 | and so for each projectile id |
| WireLayout.BombIsMeasuredFrom | crates/application/src/replay_binary.rs:290-292 | and for the bomb, whatever bomb it was |
| ReplayExactness.VerbatimRecovers | crates/application/src/replay_binary.rs:155-311 | a reader that takes texts as they were sent gets back every frame of every accepted payload |
| ReplayExactness.BodyDeterminesFrames | crates/application/src/replay_binary.rs:155-311 | any two accepted payloads of the same body have the same frames on the grid and the same metadata |
| ReplayEncoder.Writer.Push | crates/application/src/replay_binary.rs:29-35 | bytes are appended, or nothing is and the budget would be exceeded |
| ReplayEncoder.Writer.Delta | crates/application/src/replay_binary.rs:68-83 | the loop writes the base-128 form of the zigzag difference and moves the predictor to the value |
| ReplayEncoder.Writer.Position | crates/application/src/replay_binary.rs:84-92 | passes exactly for coordinates in bounds that fit, and then all three predictors are the new position |
| ReplayEncoder.Writer.Angle | crates/application/src/replay_binary.rs:97-104 | passes exactly for angles in bounds that fit, and writes the normalized angle |
| ReplayEncoder.Strings.Add | crates/application/src/replay_binary.rs:117-131 | interns a string once, at the end, or refuses it for its length or the size of the table |
| ReplayEncoder.FirstPass.AddFrames | crates/application/src/replay_binary.rs:167-235 | the interning loops compute the scan of the frames, and refuse exactly what it refuses |
| ReplayEncoder.SecondPass.WriteFrame | crates/application/src/replay_binary.rs:253-299 | a frame is written as the layout says and moves every predictor, or fails exactly if a value or the budget is out of bounds |
| ReplayEncoder.EncodeBinaryReplay | crates/application/src/replay_binary.rs:155-311 | a body comes out exactly for the accepted payloads and is the one the round trip is about; otherwise no tables would make the payload acceptable |
| RuntimeSession.RunsKeepInvariant | crates/application/src/state.rs:92-190 | in every interleaving the session is Recording j exactly if the active recording is j, and an unsettled session has exactly one pending agent, which answers for it |
| RuntimeSession.AgentsMindTheirOwnToken | crates/application/src/state.rs:124-190 | in any state, what a guard or task of one token does changes no session that its token does not hold, and never the recording slot |
| RuntimeSession.OthersAreTurnedAway | crates/application/src/state.rs:405-520 | while a launch or stop is pending, reserve, release and stop calls change nothing |
| RuntimeSession.TurnsMakeProgress | crates/application/src/state.rs:92-190 | every turn of the responsible agent brings the session nearer to idle or active |
| RuntimeSession.ATurnIsAlwaysPossible | crates/application/src/state.rs:92-190 | whenever the session is unsettled its agent has a turn it can take |
| RuntimeSession.NeverStuck | crates/application/src/state.rs:92-190 | after at most three turns of its agent, whatever else is interleaved, an unsettled session has been settled |
| RuntimeSession.StepsOfPlayback | crates/application/src/state.rs:124-190 | which steps take a session into and out of launching, active and stopping: it leaves stopping to idle only by a completed stop or a reconciliation answered with stopped, and to active only by one answered otherwise |
| RuntimeSession.StepsOfRecording | crates/application/src/state.rs:430-485 | which steps take a session into and out of recording |
| RuntimeSession.NeverIdleWhileRunning | crates/application/src/state.rs:92-190 | over any run, from the launch of the game until it is stopped the session is neither idle nor recording, whatever guard is dropped or task runs |
| RuntimeSession.HeldInEveryRun | crates/application/src/state.rs:92-190 | so in every run from the beginning |
| RuntimeSession.RefusalsNameTheHolder | crates/application/src/state.rs:405-520 | each refusal says what holds the session, and exactly then |
| RuntimeSession.GrantsAreExclusive | crates/application/src/state.rs:405-520 | playback and recording are granted exactly when the session is idle, a recording re-enters exactly its own session, and the resynchronising assignments change nothing |
| RuntimeSession.ActivationSucceeds | crates/application/src/state.rs:74-89 | marking an armed reservation active never fails |
| RuntimeSession.LocalGame.ReservePlaybackSession | crates/application/src/state.rs:405-428 | the new state and the reply, with a fresh armed reservation exactly on success |
| RuntimeSession.LocalGame.ReserveRecordingSession | crates/application/src/state.rs:430-474 | the new state and the reply in each of its six cases |
| RuntimeSession.LocalGame.ReleaseRecordingSession | crates/application/src/state.rs:476-485 | the slot and the session are freed where they are those of the job |
| RuntimeSession.LocalGame.RunReleaseTask | crates/application/src/state.rs:99-104 | the launching session of the token goes idle |
| RuntimeSession.LocalGame.RunCleanupTask | crates/application/src/state.rs:105-119 | a launching or active session of the token begins to stop, any other is left |
| RuntimeSession.LocalGame.BeginPlaybackStop | crates/application/src/state.rs:487-520 | an active session starts to stop and a stop reservation is armed; every other state is refused for its own reason |
| RuntimeSession.LocalGame.ReconcilePlaybackStop | crates/application/src/state.rs:169-190 | only the stopping session of the token becomes idle or active again |
| RuntimeSession.LocalGame.Snapshot | crates/application/src/state.rs:522-535 | the reported job is the active recording, and the debug assertion holds |
| RuntimeSession.PlaybackReservation.MarkActive | crates/application/src/state.rs:74-89 | activates the token's launching session, or leaves the duty to a spawned task |
| RuntimeSession.PlaybackReservation.BeginRuntimeLaunch | crates/application/src/state.rs:70-72 | from then on a drop cleans up rather than releases |
| RuntimeSession.PlaybackReservation.Drop | crates/application/src/state.rs:92-122 | an armed reservation hands over to a release task before the launch and to a cleanup task after it |
| AnalysisTasks.CommitOrCancel | crates/application/src/analysis_tasks.rs:73-123 | in any run, of one registration's commit and cancellation at most one ever happens, and once |
| AnalysisTasks.CommitReplyMeans | crates/application/src/analysis_tasks.rs:110-123 | the owner may begin exactly if neither a commit nor a cancellation came before, and each refusal names exactly what did |
| AnalysisTasks.CancelReplyMeans | crates/application/src/analysis_tasks.rs:73-92 | a caller gets to wait on exactly the owner that is cancelled, now or before, and each refusal names exactly what is so |
| AnalysisTasks.NeverBothReplies | crates/application/src/analysis_tasks.rs:73-123 | in no run is a registration told both to commit and that it is cancelled, in either order, and it is told to commit at most once |
| AnalysisTasks.EntryWhileOwned | crates/application/src/analysis_tasks.rs:50-71 | a run has an entry exactly while one unfinished owner holds it |
| AnalysisTasks.EndsOnlyItself | crates/application/src/analysis_tasks.rs:101-147 | an owner that ends, however late, removes its own entry and closes its own channel only |
| AnalysisTasks.OutcomeIsTheReport | crates/application/src/analysis_tasks.rs:195-216 | a waiter waits exactly as long as the owner lives and then gets what it reported, Cancelled if and only if the owner reported that |
| AnalysisTasks.OneOutcome | crates/application/src/analysis_tasks.rs:195-216 | an outcome once there is the same for every waiter, however late, in every continuation |
| AnalysisTasks.Wait | crates/application/src/analysis_tasks.rs:197-216 | the loop ends with the first version of the channel that settles it, and only then |
| AnalysisTasks.AnalysisTaskRegistry.RequestCancel | crates/application/src/analysis_tasks.rs:73-92 | the new state and the reply by phase, keeping the registry's invariant |
| AnalysisTasks.AnalysisTaskRegistry.Register | crates/application/src/analysis_tasks.rs:50-71 | a run gets one owner, or is refused if it has one |
| AnalysisTasks.AnalysisTaskRegistry.TryBeginCommit | crates/application/src/analysis_tasks.rs:110-123 | a commit begins exactly in a running registration; otherwise the reply says why not |
| AnalysisTasks.AnalysisTaskOwner.End | crates/application/src/analysis_tasks.rs:162-190 | a finish call ends the owner once; the drop that follows does nothing |
| TakeAttachment.CollectReplacements | crates/application/src/recording_materialization.rs:138-205 | the loop with its early continues collects the replacements of the specification |
| TakeAttachment.PassIsExact | crates/application/src/recording_materialization.rs:138-205 | a pass replaces exactly the clips that have an eligible output, each with the last such output as its Take |
| TakeAttachment.PassMeans | crates/application/src/recording_materialization.rs:138-205 | a pass fails exactly if an output that is due is unusable, and else gives exactly the clips that await one their last output as a Take: clips without a receipt whose intent is what the first item of the job for them asked for, with an output other than the Take they hold |
| TakeAttachment.DueTakesAreAttached | crates/application/src/recording_materialization.rs:138-245 | a submitted pass of the current revision that meets no other objection commits exactly if some clip awaits an output and none that is due is unusable; it then is the next revision and the next receipt and gives exactly these clips their Takes, and otherwise nothing changes |
| TakeAttachment.UndisturbedPass | crates/application/src/recording_materialization.rs:116-137 | a pass that nothing comes between submits with the Project as it is and the receipts of its run and all later ones |
| TakeAttachment.AttachesAtMostOnce | crates/application/src/recording_materialization.rs:116-245 | under any edits, undos and reconcilers, two attachments to one clip are of different runs and in the order of the runs |
| TakeAttachment.AttachesOnlyWhatWasAskedFor | crates/application/src/recording_materialization.rs:174-245 | a commit bumps the revision by one and changes only clips whose current intent is the request that was executed; any other pass changes neither Project nor groups |
| TakeAttachment.RevisionCountsGroups | crates/storage/src/repository/projects.rs:69-105 | over any run the revision grows by the number of committed groups |
| TakeAttachment.ReceiptsFirstWouldAttachTwice | crates/application/src/recording_materialization.rs:132-137 | with receipts read before the Head, a run exists in which one run attaches twice |
| TakeAttachment.MaterializationOwner.Poll | crates/application/src/recording_materialization.rs:70-113 | the new fields and the result of a poll in each case |
| TakeAttachment.OwnerWaits | crates/application/src/recording_materialization.rs:69-113 | after any polls the delay is 400 ms doubled per retryable failure since the last success, at most 5 s, and the missing count is that since the record was last found |
| TakeAttachment.AnnouncedOnce | crates/application/src/recording_materialization.rs:86-93 | the end of a job is announced exactly once, if it was ever seen |
| TakeAttachment.DoneMeans | crates/application/src/recording_materialization.rs:69-113 | an owner lets go exactly of a record missed fifteen times, one it cannot read for good, or a finished job whose attachment succeeded or failed for good |
| Sorting.SortByIsStable | crates/demo/src/replay.rs:105-113 | the sort keeps the order of elements that compare equal |
| Sorting.SortPlaces | crates/demo/src/replay.rs:105-113 | the sort puts every element exactly once, in order, and what compares equal in the order of the places it came from |
| UtilityLifecycles.EffectIntervals | crates/demo/src/replay.rs:118-229 | every event that stands for an interval has exactly one in the result, under a first-in-first-out pairing |
| UtilityLifecycles.MatchingIsUnique | crates/demo/src/replay.rs:118-171 | that pairing is determined by the events alone |
| UtilityLifecycles.NoPairSpansARoundStart | crates/demo/src/replay.rs:120-129 | no round starts in a tick after a pair's start and up to its end |
| UtilityLifecycles.EachStartOnce | crates/demo/src/replay.rs:133-171 | every persistent start with a usable position yields one interval, paired or of a single tick, that starts at its tick and does not end before it |
| UtilityLifecycles.BeginsAndEnds | crates/demo/src/replay.rs:266-288 | which event names begin, and which end, a smoke, a fire or a decoy |
| UtilityLifecycles.KeyMeans | crates/demo/src/replay.rs:315-345 | a thing is known by its entity, or without one by its place if all three coordinates are numbers, or else not at all |
| UtilityLifecycles.EffectShows | crates/demo/src/replay.rs:118-229 | a paired effect covers exactly the ticks from its start up to but not at its end, and its first tick in any case; an unpaired one its first tick only; with the kind, owner, place and size of its start, blocking the view exactly if it is a paired smoke |
| UtilityLifecycles.MomentShows | crates/demo/src/replay.rs:172-207 | an instant effect covers 0.35 or 0.45 seconds in ticks, rounded, if the rate is known, and any other event its tick |
| UtilityLifecycles.EvidenceMeans | crates/demo/src/replay.rs:353-369 | the tick rate is what the first event tells that tells a plausible one, exactly if all others tell the same within half a percent |
| UtilityLifecycles.DrainPendingEffects | crates/demo/src/replay.rs:209-229 | draining in any order turns exactly the waiting starts into single-tick effects |
| EffectSweep.SweepFrames | crates/demo/src/replay.rs:62-116 | the sweep with its active list gives every frame what the simple form gives it, or stops at the first frame over a limit, which it reports, with the frames before it done and the others untouched |
| EffectSweep.FrameGainsItsEffects | crates/demo/src/replay.rs:89-113 | a frame gains, as a multiset, exactly the effects with start <= tick <= end on top of its own projectiles, in drawing order, stably |
| RenderedFrames.FrameShows | crates/demo/src/replay.rs:76-113 | a frame afterwards holds what it held and one projectile for each interval around its tick, with all fields and the default radii of 144 and 150, in the order of kinds and places |
| RenderedFrames.LimitMeans | crates/demo/src/replay.rs:78-88 | a frame is over a limit exactly if it would hold more than 512 projectiles or all up to it more than a million, and which of the two is reported with which number |
| EffectSweep.RetainedIsShowing | crates/demo/src/replay.rs:71-75 | among start-sorted intervals, those pushed and retained are those around the tick |
| EffectSweep.ApplyBombState | crates/demo/src/replay.rs:371-409 | every frame gets the bomb that the events up to its tick leave |
| EffectSweep.BombMeans | crates/demo/src/replay.rs:377-405 | a bomb is shown exactly if one was planted in the running round, where it was planted last, in the state of the last defusal or explosion since |
| EffectSweep.ApplyReplayState | crates/demo/src/replay.rs:52-60 | the frames come out sorted with effects and bomb, exactly if no limit is exceeded; else the first frame over one is reported |
| DemoEnvelope.ReadVarint | crates/demo/src/recovery.rs:210-235 | the loop reads a number of at most five bytes within the file, or none |
| DemoEnvelope.WalkFrames | crates/demo/src/recovery.rs:99-141 | the walk stops where the chain of complete frames stops, and has seen the file-info frame exactly if it is in the chain |
| DemoEnvelope.CopyPrefix | crates/demo/src/recovery.rs:162-192 | whatever the sizes of the reads, the output is the prefix byte for byte |
| DemoEnvelope.CreateTerminalTailRepairCopy | crates/demo/src/recovery.rs:60-208 | the whole repair, with its four refusals |
| DemoEnvelope.RepairIsExact | crates/demo/src/recovery.rs:99-151 | the kept bytes end at the last boundary of the chain of complete frames, one of them the file-info frame; no frame fits at the cut |
| DemoFiles.RepairMeans | crates/demo/src/recovery.rs:99-208 | for the frames lined up byte by byte from the header on, up to where none fits: nothing to repair if they reach the end of the file, else what they cover exactly if a file-info frame, compressed or not, is where the header says, else a refusal |
| DemoFiles.BoundariesMean | crates/demo/src/recovery.rs:99-141 | every file has such a line of frames |
| DemoFiles.ChainIsUnique | crates/demo/src/recovery.rs:99-141 | and only one |
| DemoFiles.HeadMeans | crates/demo/src/recovery.rs:210-235 | command, tick and size are three numbers of one to five bytes, seven bits of each counting, the least first |
| DemoFiles.RefusalMeans | crates/demo/src/recovery.rs:60-98 | the three refusals of a header, each exactly if its size, its eight magic bytes or its pointer is wrong |
| DemoFiles.TornWriteIsUndone | crates/demo/src/recovery.rs:60-208 | a complete file with any proper part of one more frame behind it is repaired to itself |
| DemoEnvelope.RepairIsIdempotent | crates/demo/src/recovery.rs:60-208 | running the repair on its output finds nothing to repair |
| DemoEnvelope.VarU32Inverts | crates/cosmetics/src/safe_file.rs:300-333 | every 32-bit value in its shortest form has at most five bytes and is read back |
| DemoEnvelope.DemoFile.ReadVarU32 | crates/cosmetics/src/safe_file.rs:300-333 | reads a number below 2^32 or reports why not; the unterminated error is never reached |
| DemoEnvelope.DemoFile.ScanEnvelope | crates/cosmetics/src/safe_file.rs:255-298 | the scan over the moving position is the scan of the specification |
| DemoEnvelope.ReadersAgree | crates/cosmetics/src/safe_file.rs:300-333 | the two number readers agree, except that this one wants the value below 2^32 |
| DemoEnvelope.ScannersAgree | crates/cosmetics/src/safe_file.rs:255-298 | the rewriter accepts n messages exactly if the repair's walk reaches the end of the file through n frames of 32-bit numbers and n is in bounds |
| DemoFiles.ScanMeans | crates/cosmetics/src/safe_file.rs:255-298 | the number of frames of 32-bit numbers, or too many of them, or what is wrong with the first that does not fit: which number is cut short or too large, or a payload beyond the end |
| DemoEnvelope.AcceptedNeedsNoRepair | crates/demo/src/recovery.rs:99-145 | a file that the rewriter accepts, with a header in order, needs no repair |
| DemoEnvelope.FlagIsRefusal | crates/cosmetics/src/safe_file.rs:419-453 | the flag is up after any requests exactly if one of them went beyond the bound, measured from where the accepted ones lead |
| DemoEnvelope.BoundedIsTransparent | crates/cosmetics/src/safe_file.rs:425-453 | if no request is refused, the file ends up as without a bound and fits it |
| DemoEnvelope.OutputFitsIff | crates/cosmetics/src/safe_file.rs:425-453 | the output fits the bound exactly if no admitted write takes a byte after a refused seek without an accepted seek in between, and the flag is up whenever it does not fit |
| DemoEnvelope.AfterARefusedSeek | crates/cosmetics/src/safe_file.rs:444-453 | one seek and one write after which the output is above the bound |
| DemoFiles.WrittenMeans | crates/cosmetics/src/safe_file.rs:426-437 | a write puts its bytes where the handle is, keeps all others and fills a gap with zeros |
| MultiKills.ScanKills | crates/demo/src/highlight.rs:540-557 | the two indices find exactly the runs of enough kills within the window that cannot be extended on either side |
| MultiKills.QualifyingIsCovered | crates/demo/src/highlight.rs:540-557 | every run of enough kills within the window lies inside an emitted one |
| MultiKills.StartsAdvance | crates/demo/src/highlight.rs:540-557 | a later run starts later, in index and in tick |
| MultiKills.IdsTellApart | crates/demo/src/highlight.rs:563 | the text of an id tells round, actor and first tick, whatever characters the actor's id has |
| MultiKills.ClassifyMultiKills | crates/demo/src/highlight.rs:523-582 | the highlights are those of all maximal runs, and no two have the same id text |
| Highlights.MultiKillMeans | crates/demo/src/highlight.rs:523-582 | a highlight is shown exactly if its ticks, count, victims and id text are those of a run of enough kills within the window that neither the kill before nor the one after would fit |
| Highlights.TimelineMeans | crates/demo/src/highlight.rs:528-538 | the kills are all of the actor, by tick, those of one tick as they came |
| Clutches.NotBoth | crates/demo/src/highlight.rs:290-332 | two teams are never both, at any two moments, down to one against two |
| Clutches.OpponentsAreTheRest | crates/demo/src/highlight.rs:306-312 | the opponents are the other team's members minus its distinct dead |
| Highlights.FullTeamsMean | crates/demo/src/highlight.rs:260-283 | two full teams are two labels that all players have, each at least twice |
| Highlights.OutnumberedMeans | crates/demo/src/highlight.rs:290-332 | one against at least two, counted by the members who were no target so far |
| Clutches.FindCandidates | crates/demo/src/highlight.rs:265-332 | per team, the candidate is of the first kill that left it one against two, and is its sole survivor; none if there is no such kill |
| Clutches.ClassifyClutchAttempts | crates/demo/src/highlight.rs:255-395 | a round of two full teams has at most one clutch, exactly if some team is ever outnumbered so; other rounds have none |
| Highlights.ClutchMeans | crates/demo/src/highlight.rs:333-395 | player, extent, outcome, opponents and victims of a clutch, which is not shown exactly if it was won without a kill |
| Sampling.ReplayTicks | crates/demo/src/dense_replay.rs:175-215 | the wanted ticks in order, exactly if all ranges are verified and their number is 1 to 100000; each refusal only for its own reason |
| Sampling.RequestedTicks | crates/demo/src/round_replay.rs:324-347 | the grid of the round with its end and the event ticks, exactly if they are at most 2048 |
| Sampling.SamplersAgree | crates/demo/src/round_replay.rs:324-347 | for one round and the same event ticks both samplers want the same ticks |
| Sampling.WantedMeans | crates/demo/src/dense_replay.rs:175-215 | wanted are every sixteenth tick of a round, every eighth of a highlight, the ends of both, and the ticks of events |
| Sampling.WantedInRoundMeans | crates/demo/src/round_replay.rs:324-347 | for one round, every sixteenth tick, its start and end, and the ticks of events |
| Sampling.NearestMeans | crates/demo/src/replay_snapshots.rs:74-86 | the nearest packet is fewest ticks away, the earlier of two as near, and counts up to sixteen ticks away |
| Sampling.Align | crates/demo/src/replay_snapshots.rs:74-86 | the binary search finds the nearest packet within sixteen ticks, the earlier of two as near, or none exactly if there is none |
| Sampling.SelectSnapshotTicks | crates/demo/src/replay_snapshots.rs:60-90 | the nearest packets of all requested ticks, once each and in order, exactly if each has one near enough |
| Sampling.RoundTicksAreNear | crates/demo/src/replay_snapshots.rs:60-90 | every tick of a sampled round is within 24 ticks of a selected packet |
| Sampling.HighlightTicksAreNear | crates/demo/src/replay_snapshots.rs:60-90 | every tick of a sampled highlight is within 20 ticks of a selected packet |
| Sampling.AlignmentIsIdempotent | crates/demo/src/replay_snapshots.rs:60-90 | aligning the selected ticks again succeeds and changes nothing |
| RoundFrames.SteamIdRange | crates/demo/src/round_replay.rs:355-367 | a text of seventeen digits is a Steam id exactly if its number is one of the 2^32 - 1 of individual accounts |
| RoundFrames.ValidateRoster | crates/demo/src/round_replay.rs:279-322 | a roster passes exactly if it is ten different players of valid ids and names, five a team, each team on its own side; else the refusal is for its size, the first player at fault, or all together |
| RoundFrames.ReadPlayerSnapshots | crates/demo/src/replay_snapshots.rs:92-245 | whatever the order of the players' columns, the snapshots are those of all wanted rows in order of tick and id, or a refusal exactly if a tick is beyond 32 bits, a property, column or field is missing, or a player has two at one tick; each refusal only for its own reason |
| RoundFrames.SplitCounts | crates/demo/src/round_replay.rs:312-321 | with five a team, each on its own side, the counts of the sides are five as well |
| RoundFrames.MaterializeFrames | crates/demo/src/round_replay.rs:173-248 | frames come out exactly if every snapshot belongs to the roster on its side and every tick has ten |
| RoundFrames.TenIsEveryone | crates/demo/src/round_replay.rs:229-238 | for different snapshots, the count of ten is that of the exact roster |
| RoundFrames.ParseSelectedTicks | crates/demo/src/round_replay.rs:157-248 | frames come out exactly if everyone seen belongs and everyone is seen at every tick, and each shows the ten roster players once each, by Steam id, with what was read of them; each refusal only for its own reason |
| RosterEvidence.ReadMeans | crates/demo/src/replay_snapshots.rs:92-245 | a snapshot is read exactly if it is a row of its player of a requested tick, on team 2 as T or 3 as CT, with all its fields |
| RosterEvidence.EvidenceMeans | crates/demo/src/round_replay.rs:157-248 | the evidence is complete exactly if, row by row, the columns can be read and place every roster player on his side at every tick, and nobody else |
| RosterEvidence.BoundedTextMeans | crates/demo/src/round_replay.rs:369-374 | a name is usable exactly if what is left without the white space around it has one to so many characters and no line end or zero |
| CompetitiveRounds.PairBoundaries | crates/demo/src/demoparser_backend.rs:469-497 | the first start and the first decided end of every number, where both are there and in order, sorted by number |
| CompetitiveRounds.CompetitiveEvents | crates/demo/src/demoparser_backend.rs:468-545 | one to 128 rounds are laid out by the sweep and sorted; none or more are refused |
| RoundSelection.RoundsMean | crates/demo/src/demoparser_backend.rs:469-497 | the rounds are exactly those with a start that says one less were played and a won end that says as many, each the first of its kind, in order of ticks |
| RoundSelection.RefusedIff | crates/demo/src/demoparser_backend.rs:492-515 | no selection exactly if there is no such round, or if there are more than 128 |
| RoundSelection.SelectedIff | crates/demo/src/demoparser_backend.rs:517-545 | which other events are selected, by tick and sequence number, and that the output is in that order |
| RoundSelection.BoundariesMean | crates/demo/src/demoparser_backend.rs:532-544 | every boundary in the output is the end of a round as it came, or its start with the roster of the round: every player its events mention on the side they mention last, if these are five a side, and nobody otherwise |
| RoundSelection.OneOfEach | crates/demo/src/demoparser_backend.rs:517-545 | every round has one start and one end in the output |
| CompetitiveRounds.RoundsAreUnique | crates/demo/src/demoparser_backend.rs:469-497 | the events settle the sequence of rounds, so that the selection is one function of them whatever the order of the hash map |
| CompetitiveRounds.OneBoundaryEach | crates/demo/src/demoparser_backend.rs:519-544 | every paired round has exactly one start and one end in the output, other rounds none |
| CompetitiveRounds.OthersAreConserved | crates/demo/src/demoparser_backend.rs:522-531 | any other event is selected, as often as it occurs, exactly if it lies within a round and is before no boundary of a round of a lower number; the output is sorted |
| CompetitiveRounds.LostEvent | crates/demo/src/demoparser_backend.rs:522-531 | two rounds and an event within one of them that is not selected |
| CompetitiveRounds.LaidOutIffInOrder | crates/demo/src/demoparser_backend.rs:517-545 | the sort leaves the layout as it is if and only if the rounds follow each other in time in the order of their numbers |
| RoundAlternation.AlternatesIffDisjoint | crates/demo/src/demoparser_backend.rs:517-545 | in the output every start is followed by the end of its round and only then by the next start, if and only if the paired rounds are pairwise disjoint in time |
| RoundAlternation.KindsAlternateIffDisjoint | crates/demo/src/demoparser_backend.rs:517-545 | for rounds that do not end before they start, starts and ends take turns at all if and only if the rounds are disjoint |
| CompetitiveRounds.InOrderIsComplete | crates/demo/src/demoparser_backend.rs:522-531 | if the rounds follow each other in the order of their numbers, every event from within a round is in the output as often as it occurs |
| RoundStats.BuildRoundsAndPlayers | crates/demo/src/engine.rs:776-898 | there is a round for every start, with the events that count up to its end or the next start, their ticks, the winner of its end and the scores so far; totals are what the events in rounds earn, and sides what they said last |
| RoundReports.RoundMeans | crates/demo/src/engine.rs:776-898 | number, extent, winner and scores of a round, the scores counted over the rounds up to it |
| RoundReports.RoundsHold | crates/demo/src/engine.rs:776-898 | the rounds hold, in order, exactly the events that start one or come after a start with no end since and are of a kind that counts |
| RoundReports.TotalsMean | crates/demo/src/engine.rs:1058-1124 | each total of a player is the number of events in rounds that say so, or their damage, up to the largest 32-bit number |
| RoundReports.KillsAddUp | crates/demo/src/engine.rs:1058-1124 | the kills of all players are the kills in rounds that have an actor, as long as that is a 32-bit number |
| RoundReports.DeathsAddUp | crates/demo/src/engine.rs:1058-1124 | and their deaths those that have a target |
| RoundReports.AssistsAddUp | crates/demo/src/engine.rs:1058-1124 | their assists those that have an assister |
| RoundReports.HeadshotsAddUp | crates/demo/src/engine.rs:1079-1084 | their headshots those by one that have an actor |
| RoundReports.DamageAddsUp | crates/demo/src/engine.rs:1058-1124 | and their damage the damage in rounds that has an actor |
| RoundReports.SideMeans | crates/demo/src/engine.rs:1058-1155 | a player is on the side that the last event to say anything of him says |
| RoundReports.ListMeans | crates/demo/src/engine.rs:1058-1155 | the players listed are those that a change to a side or an event in a round names |
| RoundStats.RoundsAreUnique | crates/demo/src/engine.rs:776-898 | the events determine the rounds |
| RoundStats.UpdatePlayers | crates/demo/src/engine.rs:1058-1124 | every total of every player grows by exactly what the event gives that player |
| RoundStats.UpdateTeamAssignment | crates/demo/src/engine.rs:1126-1155 | a team change moves the player it names to a side or to none, and touches no total and nobody else |
| RoundStats.ScoresAscend | crates/demo/src/engine.rs:856-864 | scores never fall from a round to a later one |
| RoundStats.FinalScore | crates/demo/src/engine.rs:844-871 | the scores of the last round are the ends of rounds that either side has won, and its number is that of the starts, short of saturation |
| RoundStats.TotalsAreConserved | crates/demo/src/engine.rs:1058-1124 | short of saturation, summed kills are the kills in rounds with an actor, summed deaths those with a target, and so on |
| RoundStats.HeadshotsAreKills | crates/demo/src/engine.rs:1079-1084 | nobody has more headshots than kills |
| SpectatorSlots.PlayerIdentities.RegisterPlayerInfo | crates/demo/src/engine.rs:689-755 | an update replaces all that is on file for the player and files it under every key, and touches nothing else |
| SlotHistory.UpdateMeans | crates/demo/src/engine.rs:689-755 | one update in terms of its ids alone: whose it is, which keys it touches, and what slot and conflict it leaves, an update without a user id keeping both |
| SlotHistory.NobodysUpdate | crates/demo/src/engine.rs:689-709 | an update that names nobody changes nothing |
| SpectatorSlots.AliasesAgree | crates/demo/src/engine.rs:734-755 | after any updates, all aliases of a player carry the same evidence and every slot is in 1 to 64 |
| SpectatorSlots.ConflictSurvivesIff | crates/demo/src/engine.rs:711-755 | which updates a conflict survives in the eyes of the resolver, in terms of the update's keys, the player's aliases and the record under the player's id |
| SpectatorSlots.RecordKeptIff | crates/demo/src/engine.rs:711-755 | the record under the player's own id stays a conflict exactly over the player's own updates and those filed under other keys |
| SpectatorSlots.ConflictsStay | crates/demo/src/engine.rs:689-755 | over any run of such updates a conflict stays, and the player gets no slot |
| SpectatorSlots.OrdinaryUpdatesAreHarmless | crates/demo/src/engine.rs:689-700 | updates whose two Steam ids are the same and larger than any user id are such updates |
| SpectatorSlots.ConflictForgotten | crates/demo/src/engine.rs:734-755 | updates after which a conflicted player has a slot again |
| SpectatorSlots.PlayerIdentities.ResolvedSlots | crates/demo/src/engine.rs:900-927 | exactly the players with one slot on file, no conflict, and no other such player on that slot |
| SlotHistory.SlotMeans | crates/demo/src/engine.rs:689-927 | over any updates in which no player's id is shared, a player is given a slot exactly if all the player's own user ids point to it and those of no other player do |
| SlotHistory.ClaimMeans | crates/demo/src/engine.rs:689-755 | and claims it exactly in the first case, updates without a user id changing nothing |
| SpectatorSlots.ResolvedIsInjective | crates/demo/src/engine.rs:900-927 | the resolved map is injective into 1 to 64 |
| Flights.ObservedMeans | crates/demo/src/replay_projectiles.rs:271-283 | the observed lifetime is tight around the snapshots of an entity and serial |
| Flights.Materialize | crates/demo/src/replay_projectiles.rs:252-315 | frames come out exactly if no snapshot is a duplicate, with lifetimes cut at the earliest detonation inside them |
| FlightFrames.FlightsMean | crates/demo/src/replay_projectiles.rs:252-315 | the flights of a tick are exactly the snapshots of it that come no later than the end of their projectile, which is where it was seen last or just before the first smoke, flash, high-explosive or decoy event of its entity in between |
| Flights.WithinLifetime | crates/demo/src/replay_projectiles.rs:284-298 | an emitted flight is within its lifetime and before its detonation, unless both are at tick 0 |
| Flights.ShownAtItsDetonation | crates/demo/src/replay_projectiles.rs:284-298 | a snapshot and a detonation at tick 0, and the flight in the frame of tick 0 |
| Flights.EmittedIffInTime | crates/demo/src/replay_projectiles.rs:294-298 | a snapshot is in the frame of its tick if and only if the tick is not after the end of the lifetime |
| Flights.IdsTellApart | crates/demo/src/replay_projectiles.rs:302 | the text of an id tells the entity slot and the serial |
| Flights.IdsAreUnique | crates/demo/src/replay_projectiles.rs:293-315 | no two flights of a frame have the same id text |
| EffectIds.IdTellsApart | crates/demo/src/replay.rs:258-264 | the text of an effect's id tells its kind, its key and its tick |
| EffectIds.RenderedFramePassesIff | crates/application/src/replay_binary.rs:203-217 | a frame that the sweeps leave passes the encoder's check of ids and lifetimes exactly if no two effects of one kind, key and start show at its tick |
| EffectIds.FlightsAreInFlight | crates/demo/src/replay_projectiles.rs:293-315 | the flights of a frame are what that result asks for: different ids, lifetimes in order |
| EffectIds.TwoDetonationsClash | crates/demo/src/replay.rs:209-229 | two different detonations of one thing in one tick give two effects of one id |
| CosmeticPlan.ValidateLimits | crates/cosmetics/src/model.rs:282-302 | limits pass exactly if every bound is usable |
| CosmeticPlan.Validate | crates/cosmetics/src/model.rs:165-223 | a request passes exactly if the limits are usable, it is in bounds, every patch is in order and no two targets overlap; else the refusal is for the first of these that fails |
| RewritePlans.ValidMeans | crates/cosmetics/src/model.rs:165-302 | the whole condition on a request, written out |
| CosmeticPlan.ReplacementReadsBack | crates/cosmetics/src/model.rs:391-404 | the replacement is the one value of the same type that is read as the number asked for, and there is none exactly if the type has no such value |
| CosmeticPlan.MatchIsUnique | crates/cosmetics/src/plan.rs:35-69 | at most one patch of a valid request matches an entity that names no account, or, if accounts tell the owners apart, one whose identities do not conflict |
| CosmeticPlan.TwoMatchIff | crates/cosmetics/src/plan.rs:35-69 | some valid request has two patches that match an entity exactly if it names an account that an owner can have |
| CosmeticPlan.TwoMatchIffConflict | crates/cosmetics/src/plan.rs:35-69 | among requests whose accounts tell owners apart, exactly if its identities conflict |
| CosmeticPlan.PlanEntityRewrite | crates/cosmetics/src/plan.rs:35-127 | the plan is that of the first patch that matches, or none if none does |
| RewritePlans.PlanMeans | crates/cosmetics/src/plan.rs:26-127 | the plan names the first patch that applies by account, by the two halves of the original owner, or both, and for its item, and settles each of the four fields by what the entity has there; no patch exactly if none applies |
| CosmeticPlan.OrderDoesNotMatter | crates/cosmetics/src/plan.rs:35-127 | for an entity that names no account, or accounts that tell owners apart and no conflict of identities, reordering the patches changes nothing but the index of the matching patch |
| CosmeticPlan.OrderDecidesIff | crates/cosmetics/src/plan.rs:35-127 | for some valid request the order of its patches decides about the rewrite exactly if the entity names an account and has a cosmetic field |
| CosmeticPlan.OrderDecidesIffConflict | crates/cosmetics/src/plan.rs:35-127 | among requests whose accounts tell owners apart, exactly if the identities conflict and the entity has a cosmetic field |
| CosmeticPlan.FieldsAreSettled | crates/cosmetics/src/plan.rs:77-114 | every requested field that is there is replaced once, by the value asked for in its own type, or incompatible, namely if the type has no such value; other fields are neither |
| CosmeticPlan.ReplanningIsStable | crates/cosmetics/src/plan.rs:29-127 | planning for the rewritten entity gives the same match, replacements and incompatible fields, and applying it again changes nothing |

## Left out

- The ARPL container: zlib, CRC and the 16-byte header around the body are not modelled.
- JSON: the two metadata objects of a replay are carried as the text that was serialized, and reading them back is a parameter; event details are fields.
- Floating point: coordinates, angles, rates and wear are reals, with NaN and the infinities as one value that is not finite, so rounding of 64-bit arithmetic is not captured; a radius is carried as the bits of its 32-bit float.
- Text: strings of the wire are byte sequences taken to be UTF-8; the browser decoder's refusal of other bytes cannot occur for what Rust strings send.
- Locks, channels and spawned tasks are atomic steps; a task that the runtime drops at shutdown, and a game that never answers a stop, are not modelled.
- The set of jobs that have a materialization owner is not modelled; the results on attachments hold for any number of passes of one job at once.
- Storage: the compare-and-set on the revision and its receipts are modelled as one step; tables, leases and asset records are not.
- TakeAttachment.AttachesOnlyWhatWasAskedFor: a Project is a map of clips, so the order of the patch's operations and clips of the same id are not captured.
- UtilityLifecycles.EffectIntervals: which detail names an entity or a radius, and what a weapon name stands for, are fields of the event.
- EffectIds.RenderedFramePassesIff: what a weapon's name stands for has no colon, as none of the source's words has, and the UTF-8 form of a string is an injective parameter.
- The library's stable sorts are a function; frames are values in an array that is updated in place.
- The order in which hash maps are iterated is arbitrary in the model, and so is that of the actors in MultiKills.ClassifyMultiKills, which the source sorts.
- Demo decoding: packets, events, columns of player rows and player records are inputs; packet ticks are taken to be sorted.
- RoundFrames.ReadPlayerSnapshots: the fields of a row other than tick and team are one state, which is there exactly if all of them are present and in bounds.
- Clutches.ClassifyClutchAttempts: the map of players to teams is an input; titles, scores and tags of highlights are not modelled.
- RoundStats.BuildRoundsAndPlayers: canonical player ids are inputs, and averages and the score column are not modelled.
- SpectatorSlots.PlayerIdentities.RegisterPlayerInfo: covers userinfo updates; identities that events add without slot evidence are not modelled.
- Round freeze ends, the game-rules round capture and roster snapshots of the other parser backend are not modelled.
- CosmeticPlan.PlanEntityRewrite: field paths are the fixed allowlist and any other; rewriting the stream itself is not modelled.
- Cancellation, clocks, file access beyond the bytes of a file, temporary files and renames are not modelled.
