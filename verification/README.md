# Voice mixer: verified model

A Dafny model of a spatial voice mixer for virtual-world regions, and proofs of what its protocols and data structures keep.
`dafny verify dfyconfig.toml` checks everything.

## What is modelled

The mixer is a media-server plugin. A simulator tells it, room by room, which participant must not hear which, and the mixer
mixes every listener's audio every 20 ms. The model follows the plugin's own shape: where the plugin updates fields, arrays and
tables in place, the model is a class or an array method proved equal to a step of a state machine; the main results are about
whole runs of those machines.

| files | subject |
|---|---|
| `Common`, `VisBatch`, `VisAuth` | shared types, the parsed visibility batch, and the pure rules of the visibility authority |
| `Deferred`, `DeferredTheorems`, `DeferredCounters` | the store of batches for listeners that have not joined yet, and its meaning |
| `Authority`, `AuthorityRoom`, `AuthorityRules` | the authority protocol as a state machine, the room class that takes its steps, and its rules told from messages and replies alone |
| `AuthorityInvariants`, `AuthorityMirror`, `AuthorityDeferral`, `AuthorityLiveness` | what every run of the protocol keeps |
| `Columns`, `Presence`, `PresenceOrder`, `PresenceLeaves` | merging a batch into a session's set, the rows a viewer is left with under every interleaving, and what changes when a channel comes up before the join or participants leave |
| `Lifecycle`, `LifecycleTheorems` | joins, leaves, the empty-room sweep and the explicit destroy at lock-section granularity |
| `JitterBuffer`, `EchoRing`, `Hysteresis` | the per-session media structures |
| `Mix`, `RoomMix`, `Acoustics`, `OwnCamera`, `DotBatch` | the N-minus-one mix, which sources a listener hears, what its own geometry decides, and the activity dots shown for them |
| `FailClosed` | from the simulator's messages to a listener's frame |
| `PcmFramer` | the connector's streaming resampler |
| `PosStore`, `PosFeed` | the hash table of simulator-reported positions, and the sequenced feed that fills it |
| `Base64Url`, `JoinCap`, `NonceStore`, `NonceRules` | the join capability: its text, and the replay store |
| `SdpRedact` | redaction of credentials before an SDP is logged |

Locks become atomic steps: one step is one critical section. Hash tables are maps and sets, and wherever the plugin iterates over
one the order is arbitrary, either as an explicit `order` of the event or as a nondeterministic choice in the loop. Clocks are
parameters. Samples, distances and gains are real numbers. 16-bit sequence numbers, the 32-bit decoder accumulator, the 32-bit
hash and the 64-bit epoch accumulator are modelled with their wrap-around.

## What the proofs found

These are places where the code does less than its comments or documentation say. The model follows the code. Each comes with
the exact condition and with the inputs or runs that show it.

- `connectors/injector/source.py:79-80` promises that any chunking gives the output of one push. That holds exactly up to
  96 kHz (`PcmFramer.ChunkInvariantUpTo96k`): above it a push can end more than a whole sample before the next reading position,
  and the excess is forgotten.
- A capability is accepted at most once strictly inside its window, but in the very second the window ends it is accepted as
  often as it is presented: the check still admits a time equal to `exp + skew` while the sweep already drops the nonce
  (`NonceStore.SecondUseAcceptedAtBoundary`, `NonceStore.EveryUseAtTheBoundary`).
- The join arm's comment says that both destroy paths set the destroyed flag under the room's mutex
  (`src/janus_slvoice.c:3443-3446`). The explicit destroy does not, so a join may insert after the flag is set
  (`LifecycleTheorems.InsertMayFollowDestroy`): exactly when a join stood between its look at the flag and its insert as the
  flag was set (`LifecycleTheorems.DestroyOvertakenExactly`). The eviction that follows finds it.
- The argument beside `data_ready` takes readiness to be after the join's insert. A channel that comes up earlier can be shown
  sources about to be excluded, and can miss sources pushed meanwhile (`PresenceOrder.EarlyReadinessShowsExcluded`). A row is
  wrong exactly when its source was shown before the join replayed its exclusion and no batch entry for the listener has left
  the source out of its set since (`PresenceOrder.WrongExactly`). It is missing exactly when the source was pushed unseen before
  the join with the channel already open, and since then it has not been pushed, no entry has left it excluded and the channel
  has not been proven (`PresenceOrder.MissingExactly`).
- The comment on `leave_room` (`src/janus_slvoice.c:831-846`) has every removal announced before it happens. Announcement and
  removal are two critical sections, and the join's own push is a third: a backlog, an un-excluding entry or that push may show
  the leaver again after the announcement, exactly in those cases (`PresenceLeaves.LateRowExactly`), and no later message takes
  the row away (`PresenceLeaves.GhostStays`). `PresenceLeaves.LeaverShownAgain` and `PresenceLeaves.LatePushShowsLeaver` give
  the runs; `PresenceLeaves.GhostOutlastsExclusion` one that ends with an excluded participant shown.
- The cull latch keys on a 40-byte copy of the display. A display of 40 characters or more is never found again: every
  evaluation is a first sight and takes one more latch (`Hysteresis.LongDisplayForgets`). The table keeps what the last two
  ticks evaluated exactly when every display fits (`Hysteresis.RecentStoredExactly`).
- The mirrored columns follow stamped batches only. They stay within the sessions' sets over a whole run exactly when every
  unstamped batch spares them as it arrives: it has no entry, adds, removes nothing mirrored, or replaces by a set that holds
  all that is mirrored (`AuthorityMirror.ContainmentExactly`).
- The mute path's 256 notes are not limited to people present, so a replace that changes more than 256 rows leaves some row as
  it was; up to 256 none (`Columns.MergeMutes`). Three entries and an empty replace get there (`Columns.MutesOutgrowNotes`).

One result is no shortfall of the code but a limit of what it could promise: a listener's mix is independent of its own sound,
but not of its own camera. Under any acoustics the plugin can be configured with, the whole pass is free of the listener's own
geometry exactly when there is nothing to locate (`OwnCamera.OwnGeometryFreeExactly`), and what the listener is sent exactly
when from no place it may take a located source is heard over the rest of the mix (`OwnCamera.SentFreeExactly`,
`OwnCamera.SentFreeBySound`). `OwnCamera.OwnCameraMatters` shows both outcomes under the default limits.

## Model

| member | source | states |
|---|---|---|
| `VisAuth.ParseEpoch` | src/visauth.h:50-72 | accepts exactly the texts of 16 hex digits with a non-zero value, and the 64-bit accumulator returns that value |
| `VisAuth.EpochRoundTrip` | src/visauth.h:75-77 | every non-zero 64-bit epoch is restored from its 16-digit wire text |
| `VisAuth.HexDigitExactly` | src/visauth.h:56-66 | a digit is one of the sixteen in either case and stands for its place among them |
| `VisAuth.WouldSilenceCountsPairs` | src/visauth.h:149-153 | the gauge's formula is the number of ordered (listener, source) pairs with a side outside row 4 |
| `Deferred.ChannelUpdateRefinesSets` | src/deferred.c:90-156 | on duplicate-free columns the array update is set union, difference or replacement, and stays duplicate-free |
| `Deferred.SubtractInPlace` | src/deferred.c:92-109 | the in-place compaction leaves exactly the rows not named, in order |
| `Deferred.UpdateChannel` | src/deferred.c:90-156 | the loops over both arrays compute the column update |
| `Deferred.Store.RemoveRecord` | src/deferred.c:71-78 | the last record fills the hole and the count drops by one |
| `Deferred.Store.Deposit` | src/deferred.c:158-194 | the array store takes exactly the step of the deposit function: found, created, evicting, or nothing |
| `Deferred.Store.TakeReplayed` | src/deferred.c:196-206 | the replayed listener's record goes and no other changes |
| `DeferredTheorems.RunKeepsInv` | src/deferred.c:158-206 | over every run records stay within capacity, one per listener, with distinct insertion stamps and non-empty columns |
| `DeferredTheorems.PutHeld` | src/deferred.c:158-194 | one deposit applies the entry to its own listener's columns as live application would and changes no other listener's but the victim's |
| `DeferredTheorems.DeferralIsLiveApplication` | src/deferred.c:71-206 | over every run what is held for a listener is what live application of its entries gives, unless its record was evicted |
| `DeferredTheorems.PutRefinesQueue` | src/deferred.c:158-194 | one deposit on the compacted array is one deposit on a queue in insertion order |
| `DeferredTheorems.StoreRefinesQueue` | src/deferred.c:71-206 | over every run the array holds exactly the queue's records, so swap-remove never shows |
| `DeferredTheorems.VictimIsEarliestInserted` | src/deferred.c:169-177 | after any run the evicted record is the earliest inserted of those held |
| `DeferredCounters.CountersMove` | src/deferred.c:158-206 | each counter moves by one and only on its own event: a record made, made by evicting one of 256, updated, or handed to a joining listener |
| `AuthorityInvariants.NameAllEffect` | src/janus_slvoice.c:2540-2584 | whatever the order, an accepted batch gives each named listener exactly its own rule's record or reports it unarmed for lack of room, reports stale exactly the deltas whose base does not match, and touches no other record |
| `AuthorityRoom.VisRoom.AdoptEpoch` | src/janus_slvoice.c:2462-2488 | the room after the adoption rule: nothing on stale_epoch, otherwise the new epoch with every record disarmed, and the time of the message |
| `AuthorityRoom.VisRoom.NameListener` | src/janus_slvoice.c:2540-2584 | one named listener armed, advanced, marked stale or refused for room, as the protocol's step says |
| `AuthorityRoom.VisRoom.CheckBatch` | src/janus_slvoice.c:2503-2592 | the whole authority check of a batch equals the protocol's, counters included |
| `AuthorityRoom.VisRoom.HandleBatch` | src/janus_slvoice.c:2928-2966 | check, refusal, exclusions, mutes and deferrals of one batch are one step of the protocol |
| `AuthorityRoom.VisRoom.ConfirmListeners` | src/janus_slvoice.c:2615-2635 | the listeners a heartbeat lists are confirmed, reported or marked stale as the protocol says |
| `AuthorityRoom.VisRoom.DisarmOmitted` | src/janus_slvoice.c:2636-2648 | exactly the armed listeners a heartbeat omits lose their record |
| `AuthorityRoom.VisRoom.HandleHeartbeat` | src/janus_slvoice.c:2698-2792 | one room entry of a heartbeat, running or stopping, is one step of the protocol |
| `AuthorityRoom.VisRoom.RejoinColumns` | src/janus_slvoice.c:2431-2458 | an armed display joining an enforced room takes its record's columns and its deferred record is dropped; otherwise nothing happens |
| `AuthorityRoom.VisRoom.ReplayDeferred` | src/janus_slvoice.c:2380-2397 | the deferred columns are added to the session's sets and the record is dropped |
| `AuthorityRoom.VisRoom.CommitJoin` | src/janus_slvoice.c:3135-3192 | a committed join is one step of the protocol |
| `AuthorityRoom.VisRoom.LeaveRoom` | src/janus_slvoice.c:849-886 | a leave takes the session and its sets and nothing else |
| `AuthorityRules.AdoptionExactly` | src/visauth.h:86-100 | over every run a message is told stale_epoch exactly when its epoch is below that of the last message heard, within the window of it, and that message did not announce a stop; a message not heard changes nothing, and one heard under another epoch leaves no record but those it arms |
| `AuthorityRules.FirstIsHeard` | src/visauth.h:86-100 | in a room that has heard nothing every message is heard but one of a starved feed |
| `AuthorityRules.GenerationExactly` | src/janus_slvoice.c:2513-2525 | over every run a batch heard is told its generation is stale exactly when a batch of its epoch at that generation or above was taken and no other epoch was heard since |
| `AuthorityRules.DeltaExactly` | src/janus_slvoice.c:2566-2583 | a named listener advances, with its entries, exactly when the first base entry naming it carries its record's generation; otherwise its record is marked stale and it is reported and, under enforcement, skipped |
| `AuthorityRules.ReplaceExactly` | src/janus_slvoice.c:2544-2565 | an accepted replace arms each listener it names afresh with its entries, or reports it unarmed over 1024 records |
| `AuthorityRules.HeartbeatExactly` | src/janus_slvoice.c:2615-2645 | after an evaluated heartbeat exactly the listed records remain, confirmed now when listed at their own generation and stale at any other |
| `AuthorityRules.HeartbeatReports` | src/janus_slvoice.c:2621-2635 | the reply lists as unarmed the listed without a record and as stale the listed whose record is or was marked |
| `AuthorityRules.HeartbeatAnswers` | src/janus_slvoice.c:2749-2786 | which heartbeats are outdated, stopping or evaluated; an outdated one counts as a sign of life only, a stopping one marks every record stale |
| `AuthorityRules.StandingExactly` | src/janus_slvoice.c:2503-2652 | over every run the standing of a listener is what its events and their replies make of it: given by a replace, kept by every later batch based on the one before and every heartbeat at its generation |
| `AuthorityRules.RowFourExactly` | src/visauth.h:119-128 | over every run a display is in row 4 exactly when the run gives it a standing confirmed within the window, and in row 1 exactly without a record |
| `AuthorityRules.CountersExactly` | src/janus_slvoice.c:2462-2792 | over every run the counters are the numbers of messages told stale_epoch, stale generation, feed_stale and outdated, of heartbeats heard and of listeners left unarmed |
| `AuthorityRules.MembersExactly` | src/janus_slvoice.c:849-886 | over every run a session is in the room exactly when it joined and has not left since |
| `AuthorityInvariants.StepInv` | src/janus_slvoice.c:2462-2652 | every step keeps: each record of the adopted non-zero epoch, at a generation at most the room's, at most the allowed number of records |
| `AuthorityInvariants.RowTwoUnreachable` | src/visauth.h:119-128 | in every reachable state no display stands in row 2 |
| `AuthorityInvariants.OnlyReplaceRearms` | src/janus_slvoice.c:2540-2584 | a disarmed or stale-marked listener stands again exactly after an accepted replace naming it with room for its record, then at once in row 4; no heartbeat, delta, join or leave does it |
| `AuthorityInvariants.RegainedThroughReplace` | src/janus_slvoice.c:2503-2652 | over whole runs whoever regained row 4 was named by an accepted replace in between |
| `AuthorityMirror.BatchReaches` | src/janus_slvoice.c:2097-2232 | applying a batch entry by entry gives each session of a named, unskipped display exactly its own entries |
| `AuthorityMirror.RunKeepsMirror` | src/janus_slvoice.c:2412-2458 | every run of stamped batches, heartbeats, joins and leaves in an enforced room keeps the mirror invariant |
| `AuthorityMirror.MirrorNeverDrifts` | src/janus_slvoice.c:2412-2458 | an armed record's columns lie within the sets of every live session of its display, and equal them for a channel a replace has named and for a session that joined while it was armed |
| `AuthorityMirror.UnstampedContainment` | src/janus_slvoice.c:2503-2506 | for every unstamped batch, session of an armed display and column: containment survives exactly when the batch spares the column, and a batch that does not breaks it whatever stood before |
| `AuthorityMirror.ContainmentExactly` | src/janus_slvoice.c:2412-2458 | over every run of an enforced room, stamped or not, containment holds throughout if and only if every unstamped batch spares the armed columns as it arrives |
| `AuthorityDeferral.RunDeposits` | src/janus_slvoice.c:2219-2224 | over every run of the room the deferred store is the run of exactly the deposits and replays its batches and joins call for |
| `AuthorityDeferral.TwinCarriesLive` | src/janus_slvoice.c:2097-2232 | a session present through a run carries exactly live application of its display's accepted entries |
| `AuthorityDeferral.LateJoinIsEarlyJoin` | src/janus_slvoice.c:2380-2397 | a listener joining unarmed after any run gets the sets it would carry had it joined before, unless its record was evicted |
| `AuthorityLiveness.RefusedMessagesErasable` | src/janus_slvoice.c:2503-2525 | erasing any choice of the messages answered stale_epoch or feed_stale leaves authority, sets and deferrals of the run unchanged |
| `AuthorityLiveness.RefusedAuthorityAgesOut` | src/visauth.h:89-145 | a room that hears only such messages for longer than the window has no listener in row 4 |
| `AuthorityLiveness.ExactHeartbeatHarmless` | src/janus_slvoice.c:2615-2652 | a heartbeat listing exactly the records disarms and stales nobody |
| `AuthorityLiveness.HeartbeatCrossesBatch` | src/janus_slvoice.c:2767-2785 | such a heartbeat delivered after later batches and other heartbeats of its epoch is outdated, touches no record, and ends in the state of earlier delivery, confirmation times apart |
| `Columns.MergeExclusions` | src/janus_slvoice.c:2140-2209 | the 256-entry transition buffer never overflows, and replaying it on any view shows exactly the present sources no longer excluded and hides those newly excluded |
| `Columns.MergeMutes` | src/janus_slvoice.c:2308-2359 | the loops leave exactly the set the operation means, and the notes turn the old greyed rows into the new if and only if at most 256 rows change |
| `Columns.MutesOutgrowNotes` | src/janus_slvoice.c:2308-2359 | three entries of 128 sources and an empty replace change more rows than any full buffer of notes can set right |
| `Presence.RowsNeverWrong` | src/janus_slvoice.c:4765-4806 | in every interleaving the rows shown never include a present excluded source and include every present other that is not excluded and whose push has run |
| `Presence.RowsSettle` | src/janus_slvoice.c:1057-1103 | once every push has run an open channel shows exactly the others it does not exclude |
| `PresenceOrder.StepSound` | src/janus_slvoice.c:4760-4807 | with channels coming up in any order, a row is wrong, or missing, after a step exactly when the step makes it so, or it was and the step lets it last |
| `PresenceOrder.WrongExactly` | src/janus_slvoice.c:4788-4802 | over every order of events a shown row is wrong if and only if its source was shown before the join replayed its exclusion and no entry for the listener has left it out since |
| `PresenceOrder.InsertRightExactly` | src/janus_slvoice.c:3135-3192 | the rows are right after the join exactly when the channel was shown nothing that is replayed; a closed channel was shown nothing |
| `PresenceOrder.MissingExactly` | src/janus_slvoice.c:4788-4802 | over every order of events a row is missing if and only if at some event the listener joined over an open channel with the source pushed, not shown and not replayed, and no event since is the source's push, an entry that leaves it excluded, or the proof of the channel |
| `PresenceOrder.EarlyReadinessShowsExcluded` | src/janus_slvoice.c:4788-4802 | a run with the excluded source shown, and the two entries that remove the row |
| `PresenceLeaves.AstrayExactly` | src/janus_slvoice.c:848-886 | over every run with leaves and rejoins, in any order of channels, a row of somebody excluded, leaving or gone is shown if and only if a named event made it arise and every event since let it last |
| `PresenceLeaves.LateRowExactly` | src/janus_slvoice.c:862-873 | in the fence's order such a row is shown to another listener if and only if a backlog, an un-excluding entry or the join's own push relayed it after the announcement, and nothing since hid it or made it right |
| `PresenceLeaves.GhostStays` | src/janus_slvoice.c:862-873 | the row of somebody removed stays until the source rejoins or the listener is removed |
| `PresenceLeaves.LeaverShownAgain` | src/janus_slvoice.c:4703-4733 | in every state with a leave announced, a listener's proof before the removal leaves the row of somebody gone |
| `PresenceLeaves.LatePushShowsLeaver` | src/janus_slvoice.c:3604-3606 | in every state with a join's push to run, a leave that overtakes it leaves the row of somebody gone |
| `PresenceLeaves.GhostOutlastsExclusion` | src/janus_slvoice.c:2140-2209 | an entry that excludes somebody gone takes no row away, so its rejoin is a participant excluded and shown |
| `Presence.PresenceRoom.PushPresence` | src/janus_slvoice.c:1057-1103 | the push loop tells every other participant that does not exclude the subject and whose channel is open of its join or its leave |
| `Presence.PresenceRoom.SendBacklog` | src/janus_slvoice.c:1144-1174 | the snapshot shows everybody present but the listener and whom it excludes |
| `Presence.PresenceRoom.Ready` | src/janus_slvoice.c:4760-4807 | flag and snapshot are one step, taken once |
| `Presence.PresenceRoom.ApplyEntry` | src/janus_slvoice.c:2140-2209 | one exclusion entry and its transitions are one step |
| `LifecycleTheorems.StepKeeps` | src/janus_slvoice.c:849-1015 | every critical section of join, leave, sweep, destroy and teardown keeps the lifecycle invariant |
| `LifecycleTheorems.CountIsOwners` | src/janus_slvoice.c:849-964 | at every point of every interleaving the reference count is the number of owners, it is zero exactly when nobody owns the room, and every membership is owned or was dropped exactly once |
| `LifecycleTheorems.NeverOverCapacity` | src/janus_slvoice.c:3406-3464 | participants never exceed the room size although check and insert are separate critical sections |
| `LifecycleTheorems.GraceClockExact` | src/janus_slvoice.c:968-1015 | a live non-permanent room has its grace clock set exactly when it is empty, a permanent one never |
| `LifecycleTheorems.GraceClockValue` | src/janus_slvoice.c:872-877 | the clock of a live empty room shows when somebody last left or the room was last asked for |
| `LifecycleTheorems.SweptAfterGrace` | src/janus_slvoice.c:968-1001 | the sweep takes a room no sooner than its grace after that |
| `LifecycleTheorems.JoinAdmittedExactly` | src/janus_slvoice.c:3406-3464 | in a live room at rest a join goes through to its insert exactly when the room is below its size, and otherwise leaves it as it was |
| `LifecycleTheorems.TornDownStaysEmpty` | src/janus_slvoice.c:933-961 | out of the table the room holds nobody and admits nobody |
| `LifecycleTheorems.NoInsertAfterSweep` | src/janus_slvoice.c:968-1001 | the sweep takes a room empty past its grace and no join inserts into it afterwards |
| `LifecycleTheorems.InsertAfterDestroyWasUnderWay` | src/janus_slvoice.c:3441-3462 | whoever inserts after the explicit destroy's flag stood past its look at the flag when it was set, and there is at most one |
| `LifecycleTheorems.DestroyOvertakenExactly` | src/janus_slvoice.c:3441-3462 | a run whose last step set the flag can go on with an insert if and only if a join stood between its look and its insert |
| `LifecycleTheorems.InsertMayFollowDestroy` | src/janus_slvoice.c:3441-3462 | such a run exists in every room with a place |
| `JitterBuffer.Buffer.Store` | src/janus_slvoice.c:4014-4040 | an arriving packet is stored, or dropped for its size, exactly as the buffer's step says |
| `JitterBuffer.Buffer.Next` | src/janus_slvoice.c:4041-4071 | one pull on the slot array is the buffer's step |
| `JitterBuffer.TickFollows` | src/janus_slvoice.c:4041-4071 | while distances stay under 2^15 a pull on wrapped numbers is silent, plays or conceals exactly as playout on true indices does |
| `JitterBuffer.RunFollows` | src/janus_slvoice.c:4014-4071 | over every such run the 16-bit state is the true-index state modulo 2^16 |
| `JitterBuffer.IndicesIncrease` | src/janus_slvoice.c:4041-4071 | indices played or concealed strictly increase across every wrap |
| `JitterBuffer.LeadAfterPull` | src/janus_slvoice.c:4041-4071 | after a pull that is not silent the lead is between -1 and 15 |
| `JitterBuffer.PlaysFirstExactly` | src/janus_slvoice.c:4041-4071 | playing begins at the first tick that finds a packet three past the first one |
| `JitterBuffer.PlaysOnExactly` | src/janus_slvoice.c:4041-4071 | after that each tick that is not silent plays the index after the last, or three behind the newest when that one is more than 16 behind it; silent exactly while it lies ahead of every packet |
| `JitterBuffer.SlotContent` | src/janus_slvoice.c:4014-4071 | a slot is in use exactly when some arrival's packet is still in it, and then it carries that packet |
| `JitterBuffer.FrameIsLastStored` | src/janus_slvoice.c:4041-4071 | a pull returns a frame exactly when the unconsumed packet last stored in the slot carries the very sequence number to be played, and it is that payload |
| `JitterBuffer.NoConcealmentInOrder` | src/janus_slvoice.c:4041-4071 | in-order loss-free input is never concealed, however arrivals and ticks interleave |
| `EchoRing.Echo.BuildEcho` | src/janus_slvoice.c:4151-4166 | one tick's frame is the next stretch of an ideal 24000-sample delay line, missing input as zero |
| `EchoRing.Monitor` | src/janus_slvoice.c:4151-4166 | over any number of ticks the output is 24000 zeros followed by the input, across every wrap |
| `Hysteresis.Table.DistanceCull` | src/janus_slvoice.c:4259-4290 | the find-or-create, evict, latch and stamp steps on the slot array are the cull function's |
| `Hysteresis.VictimIsOld` | src/janus_slvoice.c:4268-4279 | when two consecutive ticks evaluate at most 110 sources, a full table gives up one that neither of the last two ticks evaluated |
| `Hysteresis.EvictionSparesRecent` | src/janus_slvoice.c:4259-4290 | over every run stored displays stay distinct and any display evaluated in the last two ticks is still stored |
| `Hysteresis.FollowsAutomaton` | src/janus_slvoice.c:4259-4290 | a source evaluated every tick follows exactly the two-threshold automaton over its own evaluations |
| `Hysteresis.BandStep` | src/janus_slvoice.c:4280-4287 | such a source, culled at its evaluation before, stays culled until it is below the re-add distance; any other is culled beyond the cutoff |
| `Hysteresis.CulledExactly` | src/janus_slvoice.c:4280-4287 | over every run it is culled exactly when some evaluation had it beyond the cutoff and none since below the re-add distance |
| `Hysteresis.LongDisplayForgets` | src/janus_slvoice.c:4280-4281 | in every run a display that does not fit is never found, is decided afresh each time, and takes one more latch while there is room |
| `Hysteresis.RecentStoredExactly` | src/janus_slvoice.c:4259-4290 | when two consecutive ticks evaluate at most 110 sources, the table never loses a recent one if and only if every display fits its buffer |
| `Mix.NMinusOneStereo` | src/mixer/mix.c:18-58 | every output sample is the sum of the gained samples of the sources heard, even samples left and odd right, and the count is the number heard |
| `Mix.CountExactly` | src/mixer/mix.c:18-58 | the count is the number of other sources that are active, not muted, present and gained on some side |
| `Mix.SumSensitivity` | src/mixer/mix.c:18-58 | replacing one source's samples moves the mix by exactly the gained change when it is heard, and not at all otherwise |
| `Mix.Clamp` | src/mixer/mix.c:109-118 | every sample is clamped to [-1, 1] and one inside is unchanged |
| `Mix.EncodeSkip` | src/mixer/mix.c:135-142 | the encode is skipped exactly when nothing was summed or the frame is all zeros |
| `Mix.FillFrame` | src/mixer/mix.c:72-100 | the frame is the decoder's pieces in order, then zeros up to its end or the buffer's; an error or a non-positive size gives nothing; nothing of an earlier frame shows |
| `Mix.GatheredExactly` | src/mixer/mix.c:72-100 | the pieces are the chunks up to the first that is empty, fails or finds the frame full, and a failure gives nothing |
| `RoomMix.AdjustsKeepControls` | src/janus_slvoice.c:4578-4607 | a viewer message keeps one entry per source and changes only the halves it names |
| `RoomMix.AdjustsSettle` | src/janus_slvoice.c:4578-4607 | the last mention of each half holds, a gain on the scale where 220 is one and 880 the most, and a source named gets an entry unless all 32 are taken |
| `RoomMix.SettingOf` | src/janus_slvoice.c:4436-4446 | the mix applies to a source its own entry's mute and gain |
| `RoomMix.NoSettingOf` | src/janus_slvoice.c:4414-4446 | a source without an entry is heard, at gain one |
| `RoomMix.Settings.Apply` | src/janus_slvoice.c:4578-4607 | the merge loop computes exactly that table, dropping entries beyond its bound |
| `RoomMix.DecidePairs` | src/janus_slvoice.c:4413-4466 | pair rule, moderation mute, viewer setting, exclusion and spatial stage in that order decide every source and update the cull table |
| `RoomMix.HeardExactly` | src/janus_slvoice.c:4413-4466 | the pass mutes another source exactly when it fails the pair rule, is moderation-muted, excluded, muted by its own entry, or located and culled; any other plays at its gain, and a located one panned |
| `RoomMix.MixFor` | src/janus_slvoice.c:4395-4502 | the frame, the skip decision and the table of one listener's pass, mixed or echoing |
| `RoomMix.EchoIsOwnSound` | src/janus_slvoice.c:4469-4502 | an echoing listener is sent its own delayed sound whatever the room does, and its cull table advances all the same |
| `RoomMix.NonInterference` | src/janus_slvoice.c:4413-4475 | they do not depend on the listener's own sound or place, on anything about a silenced source, or on what a culled source says |
| `Acoustics.SnapshotIsLeashed` | src/janus_slvoice.c:4219-4234 | the snapshot's camera is within the leash of its avatar, and a report within it is taken unchanged |
| `Acoustics.SnapshotOnSphere` | src/janus_slvoice.c:4228-4233 | a camera beyond the leash is drawn straight towards its avatar onto the leash's sphere |
| `OwnCamera.OwnGeometryFreeExactly` | src/janus_slvoice.c:4299-4324 | under any fixed acoustics with Euclidean distance and on a table that earlier ticks left, frame, skip decision and table are free of the listener's own leashed geometry exactly when no unsilenced source with a display has geometry, or the room is flat |
| `OwnCamera.SentFreeExactly` | src/janus_slvoice.c:4413-4475 | under any acoustics the plugin can be configured with, frame and skip decision are free of it exactly when from no leashed place the located sources move a clamped sample of the rest of the mix |
| `OwnCamera.SentFreeBySound` | src/janus_slvoice.c:4413-4475 | where at no sample two located sources pull apart, exactly when the located sources at full factor move no clamped sample |
| `OwnCamera.CameraDecides` | src/janus_slvoice.c:4299-4324 | with one talker, a camera inside the re-add distance is sent its gained, panned and clamped samples and a camera beyond the cutoff a skipped frame of zeros, whatever the latches |
| `OwnCamera.OwnCameraMatters` | src/janus_slvoice.c:217-251 | under the default limits and leash, one avatar place with two leashed cameras is sent sound from one and a skipped frame of zeros from the other |
| `DotBatch.DotBatchFor` | src/janus_slvoice.c:3641-3688 | the copied and edited batch is the one the listener is to be shown, and no copy is made only where that is the shared one |
| `DotBatch.DotsExactly` | src/janus_slvoice.c:3641-3688 | dot by dot: never an excluded source, the listener's own always otherwise, another only while both standings are good; dark exactly where it hears nothing of the source |
| `DotBatch.TableStaysReady` | src/janus_slvoice.c:4259-4290 | after a pass the cull table is again as an earlier tick leaves it |
| `DotBatch.CulledIsLatched` | src/janus_slvoice.c:3616-3621 | a source not silenced by settings has a latch culled this tick exactly when the pass muted it |
| `DotBatch.DotsAgreeWithMix` | src/janus_slvoice.c:3641-3688 | another display is omitted exactly when excluded or failing the pair rule, a dot shown is dark exactly when the mix muted its source, and any other is the shared one |
| `FailClosed.PolicyReachesTheMix` | src/janus_slvoice.c:4375-4466 | over every run of an enforced room whose unstamped batches spare the armed columns, a listener's frame, skip decision and table are independent of every source the authority bars from it |
| `FailClosed.AgedOutIsSilent` | src/janus_slvoice.c:4375-4466 | a room that hears only refused messages for longer than the window sends every listener a frame of zeros and skips its encode |
| `PcmFramer.PcmFramer.Push` | connectors/injector/source.py:108-142 | the read loop on pending bytes, carried samples and position computes the push function |
| `PcmFramer.PcmFramer.GetFrame` | connectors/injector/source.py:144-150 | a frame is returned exactly when one is complete, and it is the oldest bytes |
| `PcmFramer.PcmFramer.Flush` | connectors/injector/source.py:152-158 | the begun frame is filled with zeros and nothing else changes |
| `PcmFramer.MonoAt` | connectors/injector/source.py:115-120 | sample i is that of unit i, for stereo the mean of left and right rounded down |
| `PcmFramer.MonoLength` | connectors/injector/source.py:109-120 | there are as many samples as whole units |
| `PcmFramer.OutputsAreThoseBeforeTheEnd` | connectors/injector/source.py:131-138 | the closed form of the output count: sample k exists exactly when k * rate lies before the last source sample |
| `PcmFramer.InterpolationIsExact` | connectors/injector/source.py:134-137 | each value is the point on the line between its neighbours rounded down, lies between them, and is never clamped |
| `PcmFramer.PushExtends` | connectors/injector/source.py:108-142 | up to 96 kHz one more push takes the state of a stream to the state of the longer stream |
| `PcmFramer.ChunksReachCanon` | connectors/injector/source.py:108-142 | up to 96 kHz any chunking of a stream leaves the same output and state |
| `PcmFramer.SplitEmitsMore` | connectors/injector/source.py:139-141 | above it a split push emits one sample more than a single one |
| `PcmFramer.ChunkInvariantUpTo96k` | connectors/injector/source.py:78-80 | chunk invariance holds if and only if the rate is at most 96000 |
| `PcmFramer.FramesDeliverTheStream` | connectors/injector/source.py:108-150 | however pushes and reads interleave, frames handed out and bytes buffered are the stream's output, nothing lost, repeated or reordered |
| `PcmFramer.OutputIsExact` | connectors/injector/source.py:126-142 | output sample k, read back from the bytes, is the exact interpolation at source position k * rate / 48000 |
| `PosStore.ProbeEndsAtKey` | src/possync.c:156-164 | in a reachable table a stored key's probe ends at it |
| `PosStore.ProbeEndsAtFree` | src/possync.c:156-164 | an absent key's probe ends at a free slot while the table is not full |
| `PosStore.PutKeeps` | src/possync.c:175-189 | writing where the probe ends keeps the table sound and changes that key's point alone |
| `PosStore.Store.FindSlot` | src/possync.c:148-164 | the probe over wrapped 32-bit sums finds the key's slot, the free one it belongs in, or none exactly when the table is full of other keys |
| `PosStore.Store.Apply` | src/possync.c:170-192 | the table after a request is the bounded map after it, every entry is counted as stored or dropped, and dropped are those a full store had no place for |
| `PosStore.Store.Find` | src/possync.c:194-205 | lookup in any letter case agrees with the map, for keys of 1 to 39 characters |
| `PosStore.SameKeyExactly` | src/possync.c:194-205 | two texts are one key exactly when they differ at most in the case of letters |
| `PosFeed.PosRoom.HandlePeerPos` | src/janus_slvoice.c:2829-2862 | acceptance, clearing and storing of one request are the feed's step |
| `PosFeed.StoreIsAcceptedSinceReset` | src/janus_slvoice.c:2829-2862 | after any run the store holds exactly the accepted requests since the last full one or change of epoch, and sequence numbers rise while the epoch is unchanged |
| `PosFeed.AcceptedIsNewer` | src/janus_slvoice.c:2829-2842 | an accepted request rises above the last accepted one of its epoch, whatever was refused between |
| `PosFeed.DecideExactly` | src/janus_slvoice.c:2829-2842 | over every run a request is refused as stale_epoch exactly when its epoch is below that of a live authority, and otherwise accepted exactly when nothing of its epoch was last accepted at its number or above |
| `PosFeed.StoredIsLatest` | src/possync.c:170-192 | while no more than 256 participants are named each is stored at its latest point and no other is |
| `PosFeed.StoredIsBounded` | src/possync.c:170-192 | never more than 256 participants are stored |
| `Base64Url.Decode` | src/joincap.c:43-78 | the streaming decoder over a wrapping 32-bit accumulator accepts exactly the texts that stand for bytes that fit, and writes those bytes |
| `Base64Url.DecodeOfEncode` | src/joincap.c:43-78 | decoding inverts encoding |
| `Base64Url.EncodeOfDecode` | src/joincap.c:43-78 | an accepted text is the one encoding of its bytes |
| `Base64Url.DecodeIsInjective` | src/joincap.c:43-78 | no two accepted texts decode to the same bytes |
| `Base64Url.LetterExactly` | src/joincap.c:43-60 | the letters are the standard's URL-safe alphabet in order |
| `JoinCap.JoinOfSplit` | src/joincap.c:164-180 | joining the fields restores the payload, and there is one field more than bars |
| `JoinCap.SplitOfJoin` | src/joincap.c:164-180 | fields without bars come back as they were joined |
| `JoinCap.SplitFields` | src/joincap.c:164-180 | the scan accepts exactly eight fields |
| `JoinCap.ParseText` | src/joincap.c:122-201 | framing, signature before payload, fields and bounds are judged as the parse function says |
| `JoinCap.OneTextPerPayload` | src/joincap.c:122-201 | a signed payload has one accepted text |
| `JoinCap.AcceptedExactly` | src/joincap.c:122-201 | a text is accepted for a capability exactly when it is the prefix, a payload and its signature, the payload holding the capability's eight fields within their bounds |
| `JoinCap.SignedTextParses` | src/joincap.c:122-201 | every text made by encoding, framing and signing eight good fields parses to them |
| `JoinCap.MintedCapParses` | src/joincap.h:11-14 | every capability an issuer may write, minted in the documented layout, parses back to itself |
| `NonceStore.Store.Sweep` | src/joincap.c:282-293 | the compacting sweep ends and keeps exactly the unexpired entries |
| `NonceStore.Store.Take` | src/joincap.c:295-319 | sweep, replay refusal, full refusal or a new entry, as the step says, with stored nonces distinct |
| `NonceStore.Verify` | src/janus_slvoice.c:1437-1459 | the check, then the nonce, then the epoch |
| `NonceRules.OutcomeExactly` | src/joincap.c:204-319 | over every run a use is accepted exactly when the capability names this display, session and room, the clock is within 120 s of its window, its nonce is well formed and not held, fewer than 4096 are held, and its epoch is not below the room's; and what each refusal means |
| `NonceRules.CountersMove` | src/joincap.c:295-319 | each counter moves by one and only on its own outcome |
| `NonceStore.TakenIsLivePlusExpired` | src/joincap.c:282-319 | over every run taken is live plus expired and the store stays within its array |
| `NonceStore.SecondUseIsAfterTheWindow` | src/joincap.c:282-319 | a nonce accepted twice was accepted again only after the first capability's window |
| `NonceStore.AcceptedOnce` | src/joincap.c:204-217 | a capability is accepted at most once at non-decreasing times strictly before exp + skew |
| `NonceStore.SecondUseAcceptedAtBoundary` | src/joincap.c:204-217 | presented again at once, it is accepted exactly when the clock stands at exp + skew |
| `NonceStore.EveryUseAtTheBoundary` | src/joincap.c:282-319 | accepted once in that second, it is accepted any number of times in it |
| `SdpRedact.KeepAt` | src/sdp_redact.h:30-46 | the prefix loop finds exactly what the line keeps in front of its secret |
| `SdpRedact.RedactInto` | src/sdp_redact.h:23-69 | without a buffer it returns the length, with one it writes exactly that text and its terminator |
| `SdpRedact.RedactedCopy` | src/sdp_redact.h:72-80 | the buffer measured by the first pass always fits the second |
| `SdpRedact.LinesOfRedacted` | src/sdp_redact.h:23-69 | the redacted text reads back as the same lines, each redacted, with every line break unchanged |
| `SdpRedact.TextIsHidden` | src/sdp_redact.h:23-69 | line by line between CR and LF a credential's value and a fingerprint's all but its hash name become the mark, and everything else stays |
| `SdpRedact.RedactionKernel` | src/sdp_redact.h:23-69 | two texts redact alike exactly when they differ only in the values of credentials and fingerprints |
| `SdpRedact.RedactIsIdempotent` | src/sdp_redact.h:23-69 | redacting again changes nothing |
| `SdpRedact.NothingToRedact` | src/sdp_redact.h:47-62 | a text with no credential or fingerprint line is copied unchanged |

## Left out

- JSON parsing and replies (`src/visbatch.c`, `src/sldata.c` and the parser half of `src/possync.c`): the model starts from parsed batches, heartbeats and position requests within the parser's bounds.
- Janus, glib and pthread mechanics, allocation failure, random identifier collisions and logging.
- Opus, RTP relay, SDP negotiation and the Opus decoder behind the mix: decoded samples are given.
- HMAC-SHA256 is an arbitrary function of the text, and the C library's integer reading in a capability field an arbitrary function of the field.
- The formulas of the falloff and the azimuth: the mix takes distance and gain factors as arbitrary functions of the snapshots, and `Acoustics` states what the plugin's have in common (Euclidean distance, the leash, the falloff's ends, the pan's constant power). Floating-point rounding is not modelled.
- Presence under fail-closed, where transitions come from the delayed sender pass, and two sessions with one display in the presence and dot properties. The greyed rows of `Columns.MergeMutes` are the notes' effect, before the pair rule filters them.
- A session's own leave between its join's room pointer and its insert, and more than one handler thread. In `PresenceLeaves` a leaver's room-scoped state is reset with its removal and its own viewer's rows are not followed.
- A heartbeat that names several rooms is one message per room: each room's mutex is taken in turn.
- Diagnostic counters other than those named, `query_session`, the tick histogram, the pos-observation statistics and the join reaper.
- The connector's peer lifecycle, WAV reading and writing, the entrypoint scripts and the plugin's configuration knobs.
- Overflow of a capability's `exp + skew` beyond 64 bits, which the source does not guard.
- AuthorityRoom.VisRoom.CommitJoin: the roster sent with the join reply and the standing last announced to the listener are not part of this model.
- AuthorityRoom.VisRoom.LeaveRoom: takes the session and its sets; the leave announcement is in `PresenceLeaves`, and the grace clock and the reference drop are in `Lifecycle`.
- LifecycleTheorems.CountIsOwners: proved on a transition system of the critical sections, not on heap objects, because the property is about interleavings; the freeing of memory itself is not modelled.
- LifecycleTheorems.StepKeeps: one room and one teardown, so the table of rooms holds this room or not.
- PcmFramer.PcmFramer.constructor: takes the valid rates and channel counts; the two errors raised for others are not modelled.
- Hysteresis.FollowsAutomaton: assumes displays shorter than the slot's buffer; LongDisplayForgets shows why.
- PosStore.Store.FindSlot: characters hash by their code, as the source's bytes do for ASCII keys.
