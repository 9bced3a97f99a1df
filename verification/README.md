# Netcode state machines of plaza, in Dafny

This project models the runtime-free client half of plaza: the state machines of
`client_utils` that predict, roll back, acknowledge, mirror and measure. Each
file models one of them and proves what its documentation says every run keeps.

| files | models |
|---|---|
| FrameRings, RollbackModel, RollbackTheorems, RollbackPeers, RollbackWindow, RollbackEdges, RollbackCounts, RollbackSession | rollback netcode |
| AckWindow | sliding-window acknowledgement |
| Slot, Digest, Mirror | recycled identities, set digests and the streamed mirror |
| InputBuffer, Prediction, PredictedPlayer | client-side prediction and reconciliation |
| RateMeter, Fixed, Timestep | windowed rates, fixed-point roots, fixed steps |
| Route | prediction by shared rule |
| SnapshotBuffer, LatencyLink | interpolation buffer, simulated wire |

`dafny verify dfyconfig.toml` checks the whole project.

## How it is put together

An object whose methods update its fields is a class. Two styles tie it to what
is proved about it:

- Rollback has a value layer. `RollbackModel.Session` mirrors the session's
  fields, each method of `RollbackSession` is proved to take one session value
  to the next, and `RollbackModel.Run` applies any sequence of calls. `Trace`
  adds what the rings forget: every input ever confirmed (`known`), the frame each
  player told first (`first`) and the inputs each frame last ran on (`log`). The
  theorems quantify over all runs. `ResolveNow` is the first half of `Advance`,
  which callers cannot make alone; the runs shown to fail do without it.
- The other classes carry a ghost history (everything observed, added, logged,
  pressed or accepted), and `Valid()` says the real fields are the right function
  of it. Every method keeps `Valid()` and states how the history grows, so what
  `Valid()` implies holds after any run. The lemmas beside a class are about that
  function. A ghost flag (`orderly`, `inStep`) records whether a run has met the
  discipline a theorem needs, so no method refuses a call the source accepts.

## Where the code and its documentation part

- Rollback: an exact correction reaches `max_rollback_frames` less the frames the
  furthest player has told past head: one less once the local input for head is
  queued, because that evicts the input of the oldest frame whose snapshot is
  still held, and less again when a peer runs ahead.
- Rollback: `confirm` fixes the window's base at whichever frame is confirmed
  first, so an earlier frame confirmed later is dropped however recent it is.
- Rollback: a frame at or above a timeline's base may still have no basis. A
  confirmation past a gap can evict the last confirmed input and leave a gap at
  the base, which then predicts from neutral. A frame is answered for exactly when
  some frame told at or before it is in the window.
- Rollback: the clamp to the oldest retained frame never acts. A contradiction is
  only noticed while the used input is retained, and the snapshots slide with the
  used inputs.
- Rollback: a prediction horizon of zero means that every player's newest
  confirmation has caught up. With gaps, inputs may still be missing.
- Route: one unchecked journey stops all later ones from being checked, because
  the squares it leaves expected are never spent. So does a checked journey that
  diverged before the end of its route. Setting out on an empty route, a jump, an
  abandon or a settle that moves clears them.
- Fixed point: multiplication floors; the comment beside it says toward zero.
- Time step: the remainder is below one step after every advance and reset, not
  always after a change of step; the next advance then yields steps for time that
  passed before.

## Conventions

Integers are unbounded unless a bound is part of the behaviour: digests wrap at
64 bits and their counts at 32, generations at 16 bits, keys decode through a
32-bit index, fixed-point values wrap to 32 bits, elapsed nanoseconds saturate at
64 bits, and step counts are cast to 32. The 64-bit acknowledgement mask is held
as its bits. Times, frames and sequence numbers are naturals. Rates, drawn
positions and blend fractions are reals. `mix64` is a parameter of the digest, and
the game's own rules (step, predictor, apply, blend, point) are function values.
Loss and jitter are inputs of the link.

## Model

| member | source | states |
|---|---|---|
| `FrameRings.StateHistory.Save` | client_utils/src/rollback.rs:73-97 | the ring after a save, in closed form: appended and cut to capacity, overwritten in place, or reset and counted |
| `FrameRings.StateHistory.Restore` | client_utils/src/rollback.rs:101-107 | the state saved at a frame if it is retained, else none |
| `FrameRings.StateHistory.OldestFrame` | client_utils/src/rollback.rs:110-112 | the base frame, or none when empty |
| `FrameRings.SaveKeepsTheRest` | client_utils/src/rollback.rs:73-97 | after any save the frame is held as given and no other changes; in the window or next after it the rest stay, but for the oldest of a full window; anywhere else they go and a reset is counted |
| `FrameRings.SaveKeepsCover` | client_utils/src/rollback.rs:73-97 | a ring covering the last min(head, capacity) frames still does after the next frame is saved or a retained one overwritten; only that frame changes and resets stays zero |
| `FrameRings.InputTimeline.Confirm` | client_utils/src/rollback.rs:182-204 | the window after a confirmation: dropped below the base, filled in place, or widened with gaps and cut to capacity |
| `FrameRings.InputTimeline.ConfirmedAt` | client_utils/src/rollback.rs:208-214 | the confirmed input at a frame inside the window |
| `FrameRings.InputTimeline.LastConfirmedAtOrBefore` | client_utils/src/rollback.rs:218-234 | the backward walk finds the newest confirmed input at or before a frame still held |
| `FrameRings.ConfirmMirrors` | client_utils/src/rollback.rs:175-204 | from its base on, a timeline agrees with everything ever confirmed, in any order, with drops and evictions |
| `FrameRings.ConfirmOpens` | client_utils/src/rollback.rs:182-204 | where the window begins, in closed form: at the first frame ever told, or capacity - 1 before the newest, whichever is later |
| `FrameRings.BasisIsExact` | client_utils/src/rollback.rs:216-234 | the basis a timeline finds for a frame is the newest ever told at or before it, exactly when some frame told at or before it is not before the first told and less than capacity behind the newest; otherwise it finds none |
| `RollbackModel.SimulateTracks` | client_utils/src/rollback.rs:501-511 | simulating a frame extends the log of used inputs by that row and keeps every ring and the present equal to the fold over it |
| `RollbackModel.ResimulateTracks` | client_utils/src/rollback.rs:482-491 | the re-simulation loop replaces the log's tail and only overwrites in place |
| `RollbackModel.ResolveConsistent` | client_utils/src/rollback.rs:462-497 | resolving keeps the run invariant and rolls back to the pending frame itself: the clamp to the oldest frame never acts |
| `RollbackModel.StepConsistent` | client_utils/src/rollback.rs:386-412 | every call keeps the run invariant, in or out of window, rollback on or off |
| `RollbackModel.RunFrames` | client_utils/src/rollback.rs:408-413 | running frames feeds every row from the pending frame on anew, or with rollback off from head on, and changes no row below |
| `RollbackModel.EveryRunIsAFold` | client_utils/src/rollback.rs:386-523 | after any run of calls: rings cover exactly the last min(head, capacity) frames, resets is zero, every saved state and the present are the plain left fold of advance over the inputs used, and a pending correction is still retained |
| `RollbackModel.StatesShown` | client_utils/src/rollback.rs:362-371 | after any run, the states shown are exactly those of head and the depth frames before it, each the fold over the inputs its past ran on; no other frame is answered |
| `RollbackCounts.EveryRollbackIsCounted` | client_utils/src/rollback.rs:446-497 | over any run: the count is the number of calls that ran frames with a correction pending and rollback on, the maximum is the deepest of those rollbacks, each from the pending frame to head, and none is deeper than the history |
| `RollbackCounts.StepCounts` | client_utils/src/rollback.rs:462-497 | one call: how deep its rollback is, and what that makes of the last, the deepest and the count; none leaves the last at zero |
| `RollbackTheorems.FedInput` | client_utils/src/rollback.rs:513-523 | for any predictor and any frame: what a session with unlimited memory would feed while something told in the window is old enough, and the guess from neutral otherwise |
| `RollbackTheorems.FedInputIsBest` | client_utils/src/rollback.rs:513-523 | under repeat-last the fed input is the best-known one exactly when something told in the window is old enough, or nothing that old was ever told, or the forgotten input equals neutral |
| `RollbackTheorems.LearningChangesGuesses` | client_utils/src/rollback.rs:257-264 | a confirmation changes no guess before its frame, and under repeat-last one that matches the guess changes none at all |
| `RollbackTheorems.ConfirmSettled` | client_utils/src/rollback.rs:394-403 | after a confirmation every frame below the pending one still ran on the best-known input, exactly when its frame has not run, is retained, or had run on that input |
| `RollbackTheorems.StepSettled` | client_utils/src/rollback.rs:386-412 | any call keeps that exactly when it is exact: queueing and switching always; a confirmation as above; running frames when each of them, for each player, is fed the best-known input and, with rollback off, those left as they ran had run on it |
| `RollbackTheorems.SettledIsBestLog` | client_utils/src/rollback.rs:8-13 | keeping that means the log below the pending frame is the best-known log |
| `RollbackTheorems.RepeatLastIsExact` | client_utils/src/rollback.rs:386-523 | with repeat-last, frames stay on the best-known inputs after every call of a run exactly when every call is exact; and then, with nothing pending, the used inputs, the present and every retained state are the plain fold over them |
| `RollbackTheorems.ArrivalOrderIsForgotten` | client_utils/src/rollback.rs:8-13 | two exact runs told the same inputs and at the same frame hold the same log, rings and present, whatever the order and number of rollbacks |
| `RollbackPeers.FedInputIsConfirmed` | client_utils/src/rollback.rs:513-523 | for any predictor, a confirmed frame is fed its input exactly while the window spans it, or when the guess from neutral is that input |
| `RollbackPeers.StepHonoured` | client_utils/src/rollback.rs:394-412 | for any predictor, a call leaves frames below the pending one on every confirmed input exactly when it keeps them: the confirmation in time or agreeing, each frame run fed its confirmed inputs and, with rollback off, each left as it ran already on them |
| `RollbackPeers.EveryRunHonours` | client_utils/src/rollback.rs:386-523 | the same, both ways, over whole runs |
| `RollbackPeers.ConfirmedFramesAreTheTruth` | client_utils/src/rollback.rs:362-371 | for any predictor: the state at every frame told in full, not behind a pending correction and at most the depth before head is shown, and is the ground-truth fold |
| `RollbackPeers.PeersAgree` | client_utils/src/rollback.rs:276-278 | two peers with different local players, delays, predictors and depths both show the same world at every frame within both depths that both have been told in full and neither has a correction pending before; the present included, when neither has one pending at all |
| `RollbackPeers.NoWrongGuessIsMissed` | client_utils/src/rollback.rs:390-403 | while rollback stays on, a used input its confirmation disproves is never before the pending frame |
| `RollbackWindow.AnchoredIsRecalled` | client_utils/src/rollback.rs:216-234 | when nothing was told before the first frame told, a player answers for every frame from a point on exactly when its window still spans the first frame or one at or before that point |
| `RollbackWindow.OrderlyRunsAreExact` | client_utils/src/rollback.rs:175-180 | inputs may come out of order, with gaps and from ahead of head: as long as no frame is told before a player's first, none later than the snapshots reach, and each leaves every player answering from the frame that could run again, every call is exact for both main theorems |
| `RollbackWindow.StreamingRunsAreOrderly` | client_utils/src/rollback.rs:243-248 | gapless streams, repeats allowed and ahead of head or behind, are orderly while no stream is more than capacity frames past the frame that could run again |
| `RollbackWindow.LeadShortensReach` | client_utils/src/rollback.rs:243-248 | a gapless stream `lead` frames past head answers for a frame `depth` back exactly when depth + lead <= capacity, so a peer running ahead costs as much reach |
| `RollbackWindow.HorizonIsTheGap` | client_utils/src/rollback.rs:425-444 | the horizon is the least number that, added to the frame after every player's newest telling, reaches head: at most n exactly when it does for n |
| `RollbackModel.MaxLagIsLargest` | client_utils/src/rollback.rs:430-444 | no player is further behind than the largest lag, and some player is just that far behind unless it is zero |
| `RollbackWindow.HorizonIsZeroWhenCaughtUp` | client_utils/src/rollback.rs:427-444 | the horizon is zero exactly when every player's newest confirmation reached the last simulated frame; with confirmations in order, exactly when every input below head is known |
| `RollbackWindow.QueueingForgetsTheOldestSnapshotsInput` | client_utils/src/rollback.rs:386-388 | for every capacity: queueing head's input forgets the input of the oldest retained snapshot, so exact correction reaches capacity - 1 frames, not capacity |
| `RollbackEdges.CorrectionAtFullDepthIsWrong` | client_utils/src/rollback.rs:386-413 | for every capacity and the repeat-last predictor, a run of public calls whose correction comes capacity frames late: after the next advance nothing pends, frame 0 ran without the local input, can no longer change, and the present is not the fold over the best-known inputs |
| `RollbackEdges.ZeroHorizonMayMissInputs` | client_utils/src/rollback.rs:425-444 | a run with the horizon at zero and an input of the simulated frame missing |
| `RollbackEdges.ConfirmationBelowTheFirstIsLost` | client_utils/src/rollback.rs:182-187 | a run whose later frame is confirmed first never uses the earlier confirmation |
| `RollbackEdges.BaseFrameMayHaveNoBasis` | client_utils/src/rollback.rs:188-202 | a gap and an eviction leave a timeline no basis at its own base frame |
| `RollbackWindow.TooLateIsRightOnlyIfItAgrees` | client_utils/src/rollback.rs:397-402 | a confirmation older than the snapshots is not acted on: its frame is right exactly when it had run on that input |
| `RollbackWindow.EvictedRowsAreFinal` | client_utils/src/rollback.rs:473-480 | no later call changes the inputs a frame older than the snapshots ran on |
| `RollbackSessions.RollbackSession.constructor` | client_utils/src/rollback.rs:318-336 | a new session is the model's new session under the rules given, each window its own new object; a configured depth of zero means one and any other is kept |
| `RollbackSessions.Play` | client_utils/src/rollback.rs:283-291 | a session driven by any run of calls ends as the model's run of them, so everything proved of runs is true of it; it shows exactly the frames from its depth before head to head |
| `RollbackSessions.RollbackSession.SetRollbackEnabled` | client_utils/src/rollback.rs:379-381 | changes the flag only |
| `RollbackSessions.RollbackSession.QueueLocalInput` | client_utils/src/rollback.rs:386-388 | confirms the input at head in that player's timeline only |
| `RollbackSessions.RollbackSession.ConfirmRemoteInput` | client_utils/src/rollback.rs:394-403 | confirms, and lowers the pending frame when a retained used input disagrees |
| `RollbackSessions.RollbackSession.InputFor` | client_utils/src/rollback.rs:516-523 | confirmed, else predicted from the last confirmed held, else from neutral |
| `RollbackSessions.RollbackSession.SimulateFrame` | client_utils/src/rollback.rs:501-511 | saves the pre-state, records each player's input, steps |
| `RollbackSessions.RollbackSession.ResolveRollback` | client_utils/src/rollback.rs:462-497 | the whole session after a resolve, counters included |
| `RollbackSessions.RollbackSession.AdvanceFrame` | client_utils/src/rollback.rs:408-413 | resolves, simulates head, moves head on |
| `RollbackSessions.RollbackSession.GetStateAt` | client_utils/src/rollback.rs:366-371 | the present at head, else the saved state if retained |
| `RollbackSessions.RollbackSession.GetPredictionHorizon` | client_utils/src/rollback.rs:430-444 | the largest lag over the players, zero before the first frame |
| `Ack.SameArrivalsSameWindow` | client_utils/src/ack.rs:50-54 | windows that observed the same set of numbers are identical, so order and repetition leave no trace |
| `Ack.AdvancedDescribes` | client_utils/src/ack.rs:83-96 | shifting forward by any distance, exactly 64 included, keeps bit i equal to whether newest-1-i was observed |
| `Ack.StragglerDescribes` | client_utils/src/ack.rs:99-107 | a late arrival sets its own bit, which was set exactly if it was a duplicate |
| `Ack.ContainsMeansArrived` | client_utils/src/ack.rs:122-131 | a number is contained exactly when it was observed and is in the window |
| `Ack.ContiguousBaseIsGreatest` | client_utils/src/ack.rs:152-195 | the greatest b with first..b all observed; none exactly when first was not observed or is out of the window |
| `Ack.FrontierOnlyPassesArrivals` | client_utils/src/ack.rs:155-176 | a sender moving its frontier by contiguous_base over any acknowledgements, stale ones included, never moves back, passes only numbers that arrived, and stops at one the last acknowledgement lacks or is too new to hold |
| `Ack.OnesCountsArrivals` | client_utils/src/ack.rs:197-204 | the set bits count the arrivals behind newest |
| `Ack.EncodeRoundTrips` | client_utils/src/ack.rs:61-69 | there is a pair exactly once something arrived, and it rebuilds the same window over exactly the arrivals still in it |
| `Ack.AckWindow.FromEncoded` | client_utils/src/ack.rs:62-64 | rebuilds a window from a pair; it is a true window exactly when no bit names a number below zero |
| `Ack.AckWindow.Observe` | client_utils/src/ack.rs:76-108 | newest and mask stay the exact picture of everything observed; returns true exactly for a number new and not fallen out |
| `Ack.AckWindow.Contains` | client_utils/src/ack.rs:122-131 | observed and in the window |
| `Ack.AckWindow.MissingSince` | client_utils/src/ack.rs:139-143 | exactly the unobserved numbers from max(oldest, newest-64) to newest, ascending, at most 64 |
| `Ack.AckWindow.ContiguousBase` | client_utils/src/ack.rs:186-195 | the loop finds that greatest b, or none |
| `Ack.AckWindow.ReceivedInWindow` | client_utils/src/ack.rs:199-204 | the number of observed numbers in the window |
| `Slots.DecodeUndoesEncode` | client_utils/src/slot.rs:51-60 | decoding an encoded key gives the key back |
| `Slots.IndexStandsAboveGeneration` | client_utils/src/slot.rs:47-53 | the index is the wire key above bit 16 and the generation below it, so wire keys are ordered by index first |
| `Slots.DecodeReads48Bits` | client_utils/src/slot.rs:55-60 | decoding ignores everything from bit 48 up |
| `Slots.EncodeIsInjective` | client_utils/src/slot.rs:47-53 | two keys share a wire form only if equal |
| `Slots.EncodeUndoesDecode` | client_utils/src/slot.rs:55-60 | a wire key survives decoding exactly when it is below 2^48 |
| `Slots.SlotAllocator.Alloc` | client_utils/src/slot.rs:192-209 | takes the newest or oldest freed index by policy, or grows by one; the key is live, its index was unoccupied, every other slot is unchanged |
| `Slots.SlotAllocator.Free` | client_utils/src/slot.rs:224-236 | frees exactly a live key, bumps its generation, appends its index; refuses anything else without effect |
| `Slots.SlotAllocator.Clear` | client_utils/src/slot.rs:292-302 | nothing occupied, every index free in order, generations bumped for the occupied only |
| `Slots.SlotAllocator.LiveCountIsExact` | client_utils/src/slot.rs:189-191 | the live count is the number of occupied slots and the index space is the most ever live at once |
| `Slots.SlotAllocator.FreedKeysStayDeadUntilAWrap` | client_utils/src/slot.rs:146-155 | a key handed out is live now exactly when its slot is occupied and freed a multiple of 65536 times since; a freed key stays dead below that |
| `Digests.SetDigest.Insert` | client_utils/src/digest.rs:61-64 | adds one key to the tracked multiplicities, its mixed value to the accumulator and one to the count, both wrapping |
| `Digests.SetDigest.Remove` | client_utils/src/digest.rs:67-70 | undoes one insertion, before or after it, in the multiplicities, the accumulator and the count |
| `Digests.SetDigest.FromKeys` | client_utils/src/digest.rs:73-79 | the digest of exactly these keys |
| `Digests.SetDigest.Digest` | client_utils/src/digest.rs:83-85 | each bit is set exactly when the accumulator and the mixed count differ in it; with every removal met, the digest of the remaining multiset, independent of history |
| `Digests.EqualDigests` | client_utils/src/digest.rs:81-85 | two multisets of one size have equal digests exactly when their mixed sums are equal; of any sizes, exactly when the sums differ in just the bits the mixed counts differ in |
| `Digests.OneKeyReplaced` | client_utils/src/digest.rs:81-85 | one key in another's place goes unseen exactly when both mix to the same value |
| `Digests.OneKeyMissing` | client_utils/src/digest.rs:81-85 | the exact condition for one key too few to go unseen |
| `Digests.MixSumIsTheTotal` | client_utils/src/digest.rs:30-33 | the accumulator is the unwrapped total of the mixed keys in any order, less whole multiples of 2^64 |
| `Digests.WrapsAround` | client_utils/src/digest.rs:61-70 | the wrapping sum and difference are the ones modulo 2^64 |
| `Digests.XorBits` | client_utils/src/digest.rs:83-85 | every bit of an exclusive or is set exactly when the two differ in it |
| `Digests.ForgetsItsHistory` | client_utils/src/digest.rs:30-33 | any insert and remove run leaves the accumulator and count of inserting only what remains |
| `Mirrors.PacketOrderDoesNotMatter` | client_utils/src/mirror.rs:17-19 | entered and left lists naming different keys give the same holding whichever goes first |
| `Mirrors.ReplayDoesNotMatter` | client_utils/src/mirror.rs:17-19 | applying the packet again changes nothing |
| `Mirrors.AnyNumberOfReplays` | client_utils/src/mirror.rs:17-19 | nor does any number of replays |
| `Mirrors.PacketReachesTheTarget` | client_utils/src/mirror.rs:11-20 | any packet true of a target over any mirror: the mirror ends with the target's keys, and so its digest, exactly when every key of it was held or announced and every other key held is named or has its slot announced; and with the target itself exactly when the entities not announced were right |
| `Mirrors.DifferenceReachesTheTarget` | client_utils/src/mirror.rs:223-229 | a mirror holding the keys of A that applies the difference A to B holds exactly the keys of B and has B's digest; with the shared entities right it is B |
| `Mirrors.DifferenceExists` | client_utils/src/mirror.rs:11-20 | between any two holdings there is such a difference, and its lists name different keys |
| `Mirrors.DeadKeysMissTheirReplacement` | client_utils/src/mirror.rs:180-218 | a removal or sample naming a dead occupant touches its replacement exactly when the slot was freed a multiple of 65536 times in between |
| `Mirrors.DeltaMirror.SetGenerations` | client_utils/src/mirror.rs:139-144 | switching the key scheme clears the mirror; setting it to what it is does not |
| `Mirrors.DeltaMirror.Begin` | client_utils/src/mirror.rs:153-170 | counts the gap, acknowledges the number, clears on a full baseline; the first number and each move of the newest are recorded, and lost plus moved account for the whole sequence |
| `Mirrors.DeltaMirror.InsertEntity` | client_utils/src/mirror.rs:175-178 | files the entity under the index, replacing whatever was there, with the generation or, when generations are off, zero |
| `Mirrors.DeltaMirror.RemoveEntity` | client_utils/src/mirror.rs:185-195 | removes and returns exactly the occupant named, with generations off the one of generation zero; counts a stale reference if another holds the slot |
| `Mirrors.DeltaMirror.SampleEntity` | client_utils/src/mirror.rs:208-218 | writes exactly the occupant named and no other slot; counts a stale reference if another holds the slot |
| `Mirrors.DeltaMirror.ComputeDigest` | client_utils/src/mirror.rs:270-272 | the digest of the held key set, in any order |
| `Mirrors.DeltaMirror.Settle` | client_utils/src/mirror.rs:235-243 | agreed exactly when the held digest is the expected one, which against a mirror of as many keys means exactly when the mixed sums of both are equal; a divergence is counted otherwise |
| `Mirrors.AgreementIsInTheSums` | client_utils/src/mirror.rs:223-243 | the exact condition for two mirrors to settle as agreed: equal mixed sums for equal sizes, otherwise sums differing in just the bits the mixed sizes differ in |
| `Mirrors.OneMissedKeyShows` | client_utils/src/mirror.rs:226-229 | the exact conditions for a replaced occupant and for one missed altogether to go unseen |
| `Mirrors.DeltaMirror.DivergenceFrom` | client_utils/src/mirror.rs:250-257 | exactly the two set differences, in key order, for server keys below 2^48 |
| `InputBuffers.AfterIsFilter` | client_utils/src/input_buffer.rs:125-133 | with increasing numbers, what an acknowledgement leaves is exactly the newer inputs, in order |
| `InputBuffers.PassMarksPresses` | client_utils/src/input_buffer.rs:151-173 | handing out under non-decreasing acknowledgements, the mark is right about each input and stays right |
| `InputBuffers.ClientInputBuffer.RecordInput` | client_utils/src/input_buffer.rs:83-104 | appends, discarding and counting the oldest when full; a number above all before it keeps the run orderly |
| `InputBuffers.ClientInputBuffer.AcknowledgeInputsUpTo` | client_utils/src/input_buffer.rs:109-123 | pops the leading inputs up to the acknowledgement and no others |
| `InputBuffers.ClientInputBuffer.GetUnacknowledgedInputs` | client_utils/src/input_buffer.rs:134-148 | the suffix from the first input newer than the acknowledgement |
| `InputBuffers.ClientInputBuffer.UnacknowledgedWithPass` | client_utils/src/input_buffer.rs:161-172 | in an orderly run, one whose acknowledgements do not go back, an input is marked first exactly on its first hand-out |
| `Predictions.PredictedEntity.ApplyLocalInputAndPredict` | client_utils/src/prediction.rs:48-63 | records the input with the state before it and predicts |
| `Predictions.PredictedEntity.ReconcileWithServerState` | client_utils/src/prediction.rs:65-108 | the state becomes the server's with every newer buffered input replayed |
| `Predictions.ReplayCatchesUp` | client_utils/src/prediction.rs:65-108 | replaying the pending inputs over the state the server would have by that acknowledgement lands where the client already was |
| `Predictions.PruningIsPending` | client_utils/src/input_buffer.rs:106-123 | a buffer holding exactly the pending presses holds, after any acknowledgement, exactly those newer than it and than all before it |
| `Predictions.StaleAckIsHarmlessIffNothingWasPruned` | client_utils/src/prediction.rs:78-80 | a stale acknowledgement replays the right inputs exactly when nothing was pressed between it and the newest |
| `PredictedPlayers.PredictedPlayer.Input` | client_utils/src/predicted_player.rs:199-214 | numbers every input, predicts it unless frozen; the buffer always holds exactly the presses above its floor, a full one pushing its oldest out, and in step the player stands where all the presses since the run began lead, whatever packets came in between |
| `PredictedPlayers.PredictedPlayer.Teleport` | client_utils/src/predicted_player.rs:172-177 | stands on the new state with an empty buffer and nothing pending; a new run begins there |
| `PredictedPlayers.PredictedPlayer.SetContext` | client_utils/src/predicted_player.rs:132-134 | a changed world takes the prediction out of step until the next packet or teleport; nothing else does |
| `PredictedPlayers.PredictedPlayer.Reconcile` | client_utils/src/predicted_player.rs:225-247 | active, whatever the packet says: in step from the server's state, standing where it and every press newer than all acknowledgements lead; a packet from a server that applied the same presses since the run began moves nothing and the run goes on; any other begins a new one; frozen: tracks the server and clears the buffer |
| `PredictedPlayers.PacketFollows` | client_utils/src/predicted_player.rs:225-247 | the same of the values: what the packet leaves buffered, where its replay lands, and that a faithful one changes nothing |
| `PredictedPlayers.FaithfulSinceTheLastPacket` | client_utils/src/predicted_player.rs:216-224 | judging a packet from where the run began or from the packet before it comes to the same |
| `PredictedPlayers.FaithfulRun` | client_utils/src/predicted_player.rs:67-83 | for any interleaving of inputs and packets from a server folding the same rule, acknowledgements not going back and the buffer large enough for what is in flight, the state is the fold of every input ever pressed |
| `RateMeters.SlotsSumToRecent` | client_utils/src/meter.rs:71-107 | the sixteen slots sum to exactly the amounts and counts logged in the last sixteen buckets |
| `RateMeters.SampleReachesOneSlot` | client_utils/src/meter.rs:71-77 | a sample reaches one slot while its bucket is live, and none after |
| `RateMeters.SilenceIsZero` | client_utils/src/meter.rs:93-98 | sixteen buckets of silence read as zero |
| `RateMeters.WindowSpanIsTheTimeCovered` | client_utils/src/meter.rs:109-119 | the span is the elapsed time until sixteen buckets exist, then 7500 ms plus the filled part of the newest bucket, less by as much as the clock has gone back, down to zero |
| `RateMeters.RateMeter.Add` | client_utils/src/meter.rs:71-77 | logs the sample under the head's bucket |
| `RateMeters.RateMeter.Elapsed` | client_utils/src/meter.rs:90-107 | rolls the head on, and every slot holds its own live bucket and no other |
| `RateMeters.RateMeter.RecentSums` | client_utils/src/meter.rs:141-151 | the ring's sums are the recent log |
| `RateMeters.RateMeter.PerSec` | client_utils/src/meter.rs:136-143 | recent amount over the span in seconds, zero for no span |
| `RateMeters.RateMeter.Mean` | client_utils/src/meter.rs:146-153 | recent amount over recent count, zero for none |
| `RateMeters.RateMeter.Reset` | client_utils/src/meter.rs:190-192 | an empty log and a clock not yet started |
| `Fixed.MulFloors` | client_utils/src/fixed.rs:62-69 | multiplication floors; it truncates toward zero exactly when the product is not negative or loses nothing |
| `Fixed.DivTruncates` | client_utils/src/fixed.rs:71-76 | division leaves less than the divisor, with the dividend's sign |
| `Fixed.StepStaysAbove` | client_utils/src/fixed.rs:104-110 | a Newton step never drops below the floor root |
| `Fixed.StepHalves` | client_utils/src/fixed.rs:104-110 | above the root a step strictly decreases, to at most half the distance; at the root it stops |
| `Fixed.StepSquares` | client_utils/src/fixed.rs:104-110 | near the root the distance shrinks quadratically |
| `Fixed.ThirtyStepsSuffice` | client_utils/src/fixed.rs:104-110 | for every positive 32-bit value, thirty or more Newton steps give exactly the floor root |
| `Fixed.Correct` | client_utils/src/fixed.rs:111-116 | from any start the correction loops end on the floor root, and from the root they do no work |
| `Fixed.Sqrt` | client_utils/src/fixed.rs:98-118 | the r with r*r <= raw*256 < (r+1)*(r+1), equal to what 32 Newton steps alone give; zero for non-positive |
| `Fixed.Dist` | client_utils/src/fixed.rs:169-177 | the floor root of the wrapped squared distance, zero when that is not positive |
| `Fixed.NearPointsFit` | client_utils/src/fixed.rs:169-177 | nothing wraps between any two points less than 2048 units apart in each direction |
| `Fixed.DistIsOffByAtMostOne` | client_utils/src/fixed.rs:169-177 | for two points whose differences and sum of floored squares fit 32 bits, the distance is never above the true one and, from one whole unit, at most one raw step below |
| `Routes.HonestReportIsOnRoute` | client_utils/src/route.rs:235-260 | along a simple route within slack, a repeated report says nothing and a new square is on the route and leaves exactly the rest expected |
| `Routes.HonestJourneyNeverDiverges` | client_utils/src/route.rs:15-20 | over a whole checked journey, repeats included, every report of a new square is on the route and none diverges |
| `Routes.VerdictsAreEarned` | client_utils/src/route.rs:249-259 | on the route exactly when among the next slack squares; diverged exactly when those exist and all differ; what stays expected in each case |
| `Routes.ReportsAreCounted` | client_utils/src/route.rs:235-260 | a report counts as a confirmation exactly when it is checked and of a new square, and as a divergence exactly when it is one; unchecked reports change only where the server is |
| `Routes.UncheckedJourneysStayUnchecked` | client_utils/src/route.rs:139-150 | after an unchecked journey no report or journey brings a check or a count back, until one sets out on an empty route or a jump, an abandon or a settle strikes the squares off |
| `Routes.AfterOneMore` | client_utils/src/route.rs:114-292 | a run of the check is its calls one after another, each what the method ensures |
| `Routes.OnlyAnEmptyRouteClears` | client_utils/src/route.rs:139-150 | of two journeys after an unchecked one, whatever is reported before and between, the second, from rest, is checked exactly when the first had no squares and both ends stand on one |
| `Routes.EndOfCheckingOwes` | client_utils/src/route.rs:245-259 | a check ends on a report that is not on the route, and leaves squares owed exactly when that was a divergence before the end of the route |
| `Routes.RoutePredictor.JumpTo` | client_utils/src/route.rs:114-124 | the body is drawn on the new square from then on and nothing is owed |
| `Routes.RoutePredictor.SetOut` | client_utils/src/route.rs:139-157 | takes the route, checked exactly when it may be, nothing is left to walk or owed and both ends agree, without moving the picture |
| `Routes.RoutePredictor.Advance` | client_utils/src/route.rs:162-178 | at most one step of the given squares, without moving the picture at that instant; one step later it is drawn on the square reached |
| `Routes.RoutePredictor.Confirm` | client_utils/src/route.rs:235-260 | the verdict and what is left to expect; at most one divergence per journey |
| `Routes.RoutePredictor.Abandon` | client_utils/src/route.rs:265-273 | drops the route without moving the picture, which one step later is on the square given |
| `Routes.RoutePredictor.Settle` | client_utils/src/route.rs:279-292 | takes the server's square exactly when at rest on another, without moving the picture, which one step later is there |
| `Routes.RoutePredictor.DrawnInProportion` | client_utils/src/route.rs:182-189 | each coordinate has gone as much of its way as the step has of its time, and all of it from one step on |
| `Routes.RoutePredictor.CrossingIsSeen` | client_utils/src/route.rs:191-206 | a crossing body is not drawn where it is going; one that is not crossing is drawn within a hundredth of it |
| `Routes.TakenAdds` | client_utils/src/route.rs:170-174 | two helpings of squares are one of their sum, and enough of them end on the last square of the plan |
| `Timesteps.FramingDoesNotMatter` | client_utils/src/timestep.rs:50-55 | cutting the same time into frames differently yields the same steps and remainder |
| `Timesteps.NanosAreExactUpTo` | client_utils/src/timestep.rs:160 | milliseconds convert exactly up to 18446744073709 and saturate beyond |
| `Timesteps.ChargeConserves` | client_utils/src/timestep.rs:164-173 | time owed is steps paid, remainder and dropped time, the remainder below one step |
| `Timesteps.ChargeIsTheMost` | client_utils/src/timestep.rs:157-173 | as many whole steps as the time covers and the cap allows; time is dropped exactly when a whole step was refused, and then all that is left |
| `Timesteps.FixedTimestep.Advance` | client_utils/src/timestep.rs:159-179 | every nanosecond fed is yielded, carried, dropped or cut by the 32-bit count; remainder below one step; never more steps than the cap |
| `Timesteps.FixedTimestep.SetStep` | client_utils/src/timestep.rs:193-196 | changes the step and keeps the accumulator, which is below the new step exactly when it was less than that |
| `Timesteps.SmallerStepOwesSteps` | client_utils/src/timestep.rs:215-218 | a run whose remainder is five whole steps, paid for by an advance of no time |
| `Timesteps.FixedTimestep.Reset` | client_utils/src/timestep.rs:244-246 | discards the remainder and leaves the dropped total alone |
| `Timesteps.Periodic.Due` | client_utils/src/timestep.rs:369-376 | fires exactly when one interval has accumulated and keeps the rest, as one frame of a run |
| `Timesteps.Periodic.Advance` | client_utils/src/timestep.rs:382-387 | every whole period the time covers, the remainder below one |
| `Timesteps.DueRepaysLongFrames` | client_utils/src/timestep.rs:364-376 | asked once a frame it never fires early, loses no time, and has caught up with counting every period exactly when its carry is below one interval |
| `SnapshotBuffers.TopKIsUnique` | client_utils/src/interpolation.rs:129-134 | what was added decides the times held, so arrival order is forgotten |
| `SnapshotBuffers.InsertKeepsTopK` | client_utils/src/interpolation.rs:135-159 | ordered insertion and dropping the oldest keep exactly the K largest |
| `SnapshotBuffers.SnapshotBuffer.PartitionPoint` | client_utils/src/interpolation.rs:196-198 | the first snapshot not before a time |
| `SnapshotBuffers.SnapshotBuffer.AddSnapshot` | client_utils/src/interpolation.rs:135-160 | the snapshot goes in by time, after its equals or, when late, before them, and the oldest past the cap go; the buffer stays sorted and holds the K largest times ever added, each with a state added under it |
| `SnapshotBuffers.SnapshotBuffer.GetInterpolatedState` | client_utils/src/interpolation.rs:165-238 | clamped at the ends; strictly inside, the blend of an adjacent pair around the target by the fraction that, times their gap, is the time from the earlier to the target; the fallback and clamps never act |
| `SnapshotBuffers.SnapshotBuffer.SurroundingPairIsUnique` | client_utils/src/interpolation.rs:196-208 | only one adjacent pair surrounds a target |
| `SnapshotBuffers.SnapshotBuffer.PartWayMovesWithTheTarget` | client_utils/src/interpolation.rs:210-222 | the blend fraction is above zero and at most one, one only at the later snapshot, a half half-way, and larger for a later target in the same gap |
| `LatencyLinks.StableSortSorts` | client_utils/src/net_sim.rs:132 | the sort orders by delivery time and is a permutation |
| `LatencyLinks.DueIsPrefix` | client_utils/src/net_sim.rs:125-131 | in delivery order, what is due is a prefix of the queue |
| `LatencyLinks.DrainKeepsOrder` | client_utils/src/net_sim.rs:122-134 | draining an ordered link keeps drained then in flight equal to what was accepted |
| `LatencyLinks.LatencyLink.Send` | client_utils/src/net_sim.rs:108-118 | lost or queued at now + latency + jitter, held back behind its predecessor on an ordered link |
| `LatencyLinks.LatencyLink.DrainDue` | client_utils/src/net_sim.rs:122-134 | exactly everything due, oldest delivery first, for any clock; drained and in flight are what was accepted, in send order on an ordered link |
| `LatencyLinks.LatencyLink.StreamIsWhatWasSent` | client_utils/src/net_sim.rs:46-52 | what was handed out and what is in flight is what was accepted, each packet as often; on an ordered link, in send order |

## Left out

- `mix64` itself: which sets share a digest is stated in terms of it, and no claim is made that there are few.
- `ErrorSmoother`, `render`, `advance` and the `on_first` hook of the predicted player: the model is of the logical state.
- `InterpolationClock`: float steering of a render clock.
- Float rounding in rates, blends and drawn positions: they are modelled over reals, and the conversion of timestamps to floats always succeeds.
- `heading`, `plan`, `walking` and other read-outs that return a field or a one-line expression of fields.
- `is_frame_confirmed`, `confirmed_frame`, `latest_frame`, `clear` of the rings: one-line reads or plain resets that would only add easy members.
- `get`, `iter`, `values` and their mutable forms on the mirror; `SampleEntity` writes through the handle `get_mut` gives out.
- `SlotAllocator::iter`, `key`, `is_occupied`: reads of one slot each.
- `lifetime_per_sec`, `share_of`, `running_ms` of the meter: one-line ratios of lifetime totals.
- `StateDigest` and `determinism.rs`: hash quality.
- The xorshift generator of the simulated wire: its draws are inputs.
- Frame, time and sequence arithmetic near 2^64: the counters are unbounded here.
- Construction of a time step from a rate in hertz: a float expression.
- The server half (baselines, controllers, sessions, lobbies) and the wire codec are not part of this model.
- The estimators and curves of the crate (round trip, arrival, clock sync, trajectories, smoothing): rounding-dependent, or one line of algebra over reals.
