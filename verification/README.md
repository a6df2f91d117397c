# Jackstay ownership protocols, verified

Jackstay is a shared-memory broadcast system: one producer, many independent readers, no
reader able to hold the producer up. What makes it work is a set of small ownership
protocols, and this project models those protocols in Dafny and proves what they promise.

* **Video control ring.** A seqlock ring of frame slots and a second, four-entry seqlock
  ring of stream configurations (`Seqlock`, `VideoFrames`, `VideoRing`, `ControlPage`).
  `VideoRing` interleaves one producer with any number of readers, one word per step, words
  in any order. `ControlPage` is the page as an object between pushes; it refines an
  append-only log.
* **Native surfaces.** `NativeReuse` interleaves staging, publication, pool replacement and
  readers that count first and re-check second. `NativeProducer` is the publishing object:
  slot choice, pool exhaustion, gap accounting; its publish is shown to take the steps of
  `NativeReuse`.
* **Audio rings.** Formats, geometry and block records (`AudioFormat`), the writer
  (`PlaybackWriting`), a lapped reader against any writer (`PlaybackReading`), the doorbell
  (`Doorbell`), the recording writer handover (`RecordingHandover`) and the two together, a
  reader across changes of writer (`RecordingReading`).
* **Claim before validate.** `ClaimProtocol` is the step relation of the acquisition model
  checker, for any number of consumers and reuse cycles instead of two of each.
* **Admission book.** `Admission` keeps worst-case reservations as sums over live records.
* **Handshake.** `TrackOffer`, `Handshake`, `HandshakeRun`: host and consumer derive the
  transferred objects separately.
* **Affordances channel.** `Framing` (length-prefixed bytes under partial reads and writes),
  `Outbox` (the two-layer byte budget), `EventQueue` (events waiting for the caller),
  `Snapshots` and `AffordanceMessages` (typed state, its JSON values, verbs),
  `SnapshotChannel` (replicated caches, end to end over the framed wire, for any message
  semantics that keeps a few laws) and `AffordanceChannel` (the affordances messages keep
  them).
* `Modular` and `Options` hold integer widths, arithmetic facts and the option type.

Concurrent protocols are step relations over states: `Enabled` and `Apply` give the steps, a
`Run` is any finite sequence of enabled steps from an initial state, and the main lemmas
speak of every state of every run. Loads and stores are sequentially consistent. Objects
that one thread or one lock owns are classes whose methods change their fields, with ghost
histories that the contracts tie to the real fields. Integer widths are written out where
they matter: 32-bit config generations, 32-bit saturating drop counts, 32- and 64-bit
admission limits, 32-bit block counts, 32-bit format generations.

## Findings

* **Handshake lookup.** `offerable` looks a ring up by identifier and direction
  (handshake.rs:367), but `accept` and `claim` look it up by identifier alone
  (handshake.rs:254, 376). When a playback track's identifier belongs first to a recording
  ring, the host sends no doorbell, or nothing, where the consumer expects one.
  `Handshake.MisresolvedTrackDisagrees` gives the selection and
  `Handshake.AgreementIffResolves` proves that this is the only way the two sides can
  disagree. One ring per identifier, as the API intends, rules it out
  (`Handshake.OneRingPerIdResolves`).
* **Drop counts.** `dropped_before_publish` saturates at 32 bits, so reported gaps plus the
  pending count equal the drops exactly when no gap ever exceeds `u32::MAX`
  (`NativeProducer.DropsAreConserved`; `NativeProducer.OverflowedGap` reaches a state where
  they do not).
* **Lost sequence numbers.** A failed fence signal uses up a sequence number that no entry
  reports, so sequence = cursor + drops exactly for entries with no failed signal before
  them in the producer's history (`NativeProducer.SequenceAccountsForDrops`;
  `NativeProducer.LostSignal` reaches an entry where it fails).
* **Config generations.** The slot carries 32 bits of the config generation. A successful
  read is right whatever the number of generations, but a live, recent frame is readable
  exactly when its generation is below 2^32 (`ControlPage.RecentIsReadableIffItFits`;
  `ControlPage.WideGenerationFails` gives a log whose newest frame cannot be read).

## Model

| member | source | states |
|---|---|---|
| Seqlock.WriteKeepsInv | crates/jackstay/src/audio.rs:307-330 | every store of a publication, in any word order, keeps each slot's sequence word naming exactly the record whose words it holds |
| Seqlock.WriteKeepsCopy | crates/jackstay/src/audio.rs:332-354 | a writer step during a copy either leaves the words copied so far those of the wanted record or makes the final re-check fail |
| Seqlock.IntactCopyIsRecord | crates/jackstay/src/audio.rs:332-354 | a complete copy whose two sequence reads agree is the record published at that cursor |
| Seqlock.WordNames | crates/jackstay/src/control_page.rs:654-669 | a slot names cursor c if and only if c is published and not yet being overwritten |
| Seqlock.HeldBody | crates/jackstay/src/control_page.rs:688-708 | a slot that names a cursor holds that cursor's record word for word |
| Seqlock.SharedRing.Publish | crates/jackstay/src/audio.rs:307-330 | publishing word by word in place appends exactly one record to the ring's history and advances the cursor by one |
| VideoFrames.SlotRoundTrip | crates/jackstay/src/control_page.rs:688-725 | the slot words give the frame back, and its config generation modulo 2^32 |
| VideoFrames.ConfigRoundTrip | crates/jackstay/src/control_page.rs:727-760 | the config words give the stream values back |
| VideoFrames.TruncationKeepsSlot | crates/jackstay/src/control_page.rs:671-686 | truncating a generation to 32 bits does not change which config slot it names |
| VideoFrames.LiveWindow | crates/jackstay/src/control_page.rs:968-981 | a published cursor is live exactly while fewer than a ring of cursors came after it |
| VideoRing.EveryReadAnswers | crates/jackstay/src/control_page.rs:542-686 | in every run, with any number of readers and word-by-word copies, a finished read is the entry pushed at that cursor, stream values included, or an error whose cause is true of the run and whose cursors and sequence words stood there at some moment of it |
| VideoRing.ValidSlotIsPushed | crates/jackstay/src/control_page.rs:654-669 | a slot copy that validates is the frame pushed there and names its config generation modulo 2^32 |
| VideoRing.ValidConfigIsNamed | crates/jackstay/src/control_page.rs:671-686 | a config copy that validates holds the stream values given to the push of that cursor, although the config ring is overwritten independently |
| VideoRing.StepKeepsInv | crates/jackstay/src/control_page.rs:542-612 | every step of the producer or of any reader keeps the two rings, the push history and every reader's partial copies consistent |
| VideoRing.GenerationsCountChanges | crates/jackstay/src/control_page.rs:579-612 | in every run the generation of an entry counts the stream changes up to it, so an unchanged stream is never given a new configuration |
| VideoRing.NeverStuck | crates/jackstay/src/control_page.rs:542-686 | in every reachable state the producer can go on, and so can every reader that has not finished |
| ControlPage.CapacityIsLeastPower | crates/jackstay/src/control_page.rs:1049-1051 | the ring capacity is the least power of two covering the request, and at least one |
| ControlPage.MaskIsRemainder | crates/jackstay/src/control_page.rs:397-403 | masking with a power of two minus one is the remainder, so the masked slot index is the ring index |
| ControlPage.VideoTrackControlPage.constructor | crates/jackstay/src/control_page.rs:426-437 | a new page is an empty log with the rounded capacity |
| ControlPage.VideoTrackControlPage.SlotIndex | crates/jackstay/src/control_page.rs:397-403 | the masked index is the slot the ring uses for that cursor |
| ControlPage.VideoTrackControlPage.EnsureStreamConfig | crates/jackstay/src/control_page.rs:579-612 | unchanged stream values reuse the current generation and store nothing; changed ones append one config record and move on by one |
| ControlPage.VideoTrackControlPage.Push | crates/jackstay/src/control_page.rs:542-577 | a push appends exactly its entry to the log and returns its position, leaving the page valid |
| ControlPage.PushIsAppend | crates/jackstay/src/control_page.rs:542-612 | after any push the two rings are those of the log one longer, its generation counted from the stream changes |
| ControlPage.VideoTrackControlPage.ReadEntryForCursor | crates/jackstay/src/control_page.rs:614-645 | between pushes: empty exactly when nothing was pushed; not published past the newest cursor, which it reports; lapped below the oldest cursor any slot names, reporting that and the newest; an overwritten config when its slot names another generation, which it reports; otherwise the entry pushed at that cursor |
| ControlPage.VideoTrackControlPage.ReadConfig | crates/jackstay/src/control_page.rs:671-686 | the config half of a read succeeds exactly when the log says the generation is still held |
| ControlPage.VideoTrackControlPage.RingSnapshot | crates/jackstay/src/control_page.rs:983-994 | a snapshot lists exactly the readable entries of the log, oldest first |
| ControlPage.SlotHolds | crates/jackstay/src/control_page.rs:654-669 | every cursor of the live window is in its slot with its frame and generation |
| ControlPage.OldestIsHeld | crates/jackstay/src/control_page.rs:968-976 | the oldest live cursor is in its slot and no slot names an older one |
| ControlPage.ConfigHolds | crates/jackstay/src/control_page.rs:671-686 | a config slot still names a generation exactly when it is among the last four, and then holds that frame's stream values |
| ControlPage.ReadableFrom | crates/jackstay/src/control_page.rs:614-645 | while generations fit 32 bits, the readable live cursors are exactly those from one point on |
| ControlPage.SnapshotIsTail | crates/jackstay/src/control_page.rs:962-994 | the snapshot is the consecutive tail of the log that is in the live window and within the last four config generations |
| ControlPage.RecentIsReadableIffItFits | crates/jackstay/src/control_page.rs:614-645 | a live cursor among the last four config generations is readable if and only if its generation fits 32 bits |
| ControlPage.WideGenerationFails | crates/jackstay/src/control_page.rs:579-612 | after 2^32 configurations the newest frame reports an overwritten config |
| NativeReuse.SampledBytesAreStaged | crates/jackstay/include/jackstay_ring.h:37-48 | in every run, a surface whose re-check succeeded keeps exactly the bytes staged for its cursor until released, and every held surface has a nonzero use count |
| NativeReuse.StepKeepsInv | crates/jackstay/src/native.rs:286-402 | staging word by word, publishing, replacing the pool, counting, checking, sampling and releasing each keep the reuse invariant |
| NativeReuse.HeldIsCounted | crates/jackstay/src/native.rs:538-550 | a reader between its count and its release is counted on its surface |
| NativeReuse.RecheckIsExact | crates/jackstay/include/jackstay_ring.h:37-48 | in every run the re-check admits a reader exactly while fewer than a ring of cursors came after its own |
| NativeReuse.HoldsAreCounted | crates/jackstay/src/native.rs:538-550 | a hold and a release change the use count of that one surface by one |
| NativeReuse.CheckFirstFails | crates/jackstay/include/jackstay_ring.h:37-48 | with the check before the count there is a run in which a reader samples restaged bytes |
| NativeProducer.NativeTrackProducer.Create | crates/jackstay/src/native.rs:232-266 | creation succeeds exactly when the pool exceeds the ring, giving a valid producer of that pool, ring and policy with no entries |
| NativeProducer.NativeTrackProducer.ClaimSlot | crates/jackstay/src/native.rs:377-402 | the claimed slot is free, follows the hint, has left the live window, and every free slot the rotation visits before it is still named by the ring; none is returned exactly when every free slot the hint allows is |
| NativeProducer.NativeTrackProducer.FirstUnheld | crates/jackstay/src/native.rs:629-638 | of the candidates in order, the first whose use count is zero |
| NativeProducer.RotationOrder | crates/jackstay/src/native.rs:383-384 | the rotation goes up from where it starts and wraps once to the slots below |
| NativeProducer.NativeTrackProducer.Publish | crates/jackstay/src/native.rs:310-372 | which of the five outcomes occurs and its whole effect on the entry, the slots and every counter; with no hint and few enough holds it never finds the pool exhausted |
| NativeProducer.NativeTrackProducer.Commit | crates/jackstay/src/native.rs:333-372 | the published entry carries the drawn sequence, fence value and pending drop count; the slot takes the new cursor and the rotation moves past it |
| NativeProducer.NativeTrackProducer.Refuse | crates/jackstay/src/native.rs:311-327 | exhaustion counts one drop under the drop policy and changes nothing under the fail policy |
| NativeProducer.NativeTrackProducer.ReplacePool | crates/jackstay/src/native.rs:286-304 | a replacement pool is accepted exactly when it exceeds the ring, and counters and entries survive it |
| NativeProducer.ExhaustionNeedsHolds | crates/jackstay/src/native.rs:241-248 | if every slot outside the live window is held, at least pool size minus ring capacity surfaces are held |
| NativeProducer.WindowHoldsFew | crates/jackstay/src/native.rs:377-390 | distinct slot cursors put at most one slot per cursor into a window |
| NativeProducer.NoneMeansHeld | crates/jackstay/src/native.rs:377-402 | the allocator's refusal with no hint implies that many holds |
| NativeProducer.LiveSlotsDistinct | crates/jackstay/src/native.rs:377-402 | live entries of the active pool name pairwise distinct slots |
| NativeProducer.PublishKeepsAlloc | crates/jackstay/src/native.rs:341-372 | publishing into an unreachable slot keeps every slot's cursor that of the last entry using it |
| NativeProducer.ReplaceKeepsAlloc | crates/jackstay/src/native.rs:286-304 | so does starting a fresh pool |
| NativeProducer.SequenceAccountsForDrops | crates/jackstay/src/native.rs:310-372 | for every producer and every entry, sequence is cursor plus drop count if and only if no fence signal failed before that publication in its history of outcomes |
| NativeProducer.ConsecutiveSequences | crates/jackstay/src/native.rs:310-372 | consecutive entries differ in sequence by one plus the reported gap if and only if between them no signal failed and the drops fit 32 bits |
| NativeProducer.TallyGrows | crates/jackstay/src/native.rs:310-372 | counts of drops, publications and failed signals never shrink along a history, and stay exactly where nothing of the kind happened |
| NativeProducer.GapCountsDrops | crates/jackstay/src/native.rs:311-327 | with nothing published in between, the pending gap grows by exactly the drops |
| NativeProducer.ReportedGaps | crates/jackstay/src/native.rs:311-372 | over any history of outcomes, reported gaps plus the saturated pending one equal the drops exactly when no gap exceeded 32 bits |
| NativeProducer.DropsAreConserved | crates/jackstay/src/native.rs:310-372 | reported gaps plus the pending count never exceed the total drops, and equal them if and only if no gap exceeded 32 bits, across pool replacement and both policies |
| NativeProducer.OverflowedGap | crates/jackstay/src/native.rs:311-327 | one drop more than 32 bits count makes reported plus pending differ from the total |
| NativeProducer.LostSignal | crates/jackstay/src/native.rs:333-341 | one failed signal makes the first entry's sequence exceed its cursor plus its drops |
| NativeProducer.PublishRefines | crates/jackstay/src/native.rs:310-402 | a successful publish is a claim, the stores of the frame, a push and a record of the reuse protocol, so its guarantees cover this producer |
| NativeProducer.FailureRefines | crates/jackstay/src/native.rs:329-341 | a publish that fails before or after staging is a claim of the protocol that comes to nothing, with the allocator unchanged |
| NativeProducer.ReplaceRefines | crates/jackstay/src/native.rs:286-304 | replacing the pool is the protocol's reconfiguration |
| ClaimProtocol.NoUnsafeRead | scripts/check-acquisition-model.py:34-96 | for any number of consumers and reuse cycles, with closing anywhere, no admitted consumer is about to read storage rewritten since the generation it claimed |
| ClaimProtocol.StepKeepsInv | scripts/check-acquisition-model.py:34-96 | every claim, validation, scan, write, release and close step keeps the invariant behind that |
| ClaimProtocol.ClosedIsInactive | scripts/check-acquisition-model.py:63-68 | a closed incarnation is never active again |
| ClaimProtocol.NoAdmissionAfterClose | scripts/check-acquisition-model.py:47-53 | a consumer not admitted when it closes is never admitted later, in every mode |
| ClaimProtocol.StepKeepsClosed | scripts/check-acquisition-model.py:34-68 | one step keeps closed consumers closed, inactive and not newly admitted |
| ClaimProtocol.ReuseLeftAlone | scripts/check-acquisition-model.py:70-96 | for any number of consumers, an undisturbed reuse attempt rewrites and republishes under the next generation exactly when nobody claims the current one |
| ClaimProtocol.AcquireLeftAlone | scripts/check-acquisition-model.py:40-53 | an undisturbed acquisition is admitted, claim in place, exactly when the consumer is active and asked for the published generation |
| ClaimProtocol.ReleaseLeftAlone | scripts/check-acquisition-model.py:54-61 | reading and releasing finish with no claim left |
| ClaimProtocol.ScanBeforeRetireFails | scripts/check-acquisition-model.py:74-77 | scanning before retiring has a run that reads reused storage |
| ClaimProtocol.EarlyReleaseFails | scripts/check-acquisition-model.py:50-51 | releasing at validation has a run that reads reused storage |
| ClaimProtocol.ReuseGenerationFails | scripts/check-acquisition-model.py:92-93 | reusing a generation number has a run that reads reused storage |
| Admission.CheckLimits | crates/jackstay/src/acquisition.rs:122-141 | limits are accepted exactly when capacity covers history plus a nonzero reserve, the fixed allocations fit the budget, nothing overflows and some incarnation is allowed |
| Admission.AdmissionBook.Create | crates/jackstay/src/acquisition.rs:122-153 | a book is made exactly from sound limits, with no reservations and exactly the fixed allocations committed |
| Admission.AdmissionBook.AvailableFrames | crates/jackstay/src/acquisition.rs:234-236 | what is left never underflows and, with history, reserve and reservations, makes up the capacity |
| Admission.AdmissionBook.Admit | crates/jackstay/src/acquisition.rs:159-200 | admission succeeds exactly when the request fits every limit, under an identifier never used before; every refusal leaves the book unchanged and names the first check it fails, in the order of the code |
| Admission.AdmissionBook.Close | crates/jackstay/src/acquisition.rs:205-209 | closing marks one live record and reclaims nothing |
| Admission.AdmissionBook.CompleteCleanup | crates/jackstay/src/acquisition.rs:216-229 | cleanup removes exactly one closing record and gives back exactly its frames and bytes |
| Admission.RemoveFromSums | crates/jackstay/src/acquisition.rs:221-227 | removing a record lowers both sums by its own amounts, so no subtraction underflows |
| Admission.HeldWithinSum | crates/jackstay/src/acquisition.rs:159-200 | what incarnations hold within their grants is at most the reserved sum |
| Admission.ReserveStaysFree | crates/jackstay/src/acquisition.rs:122-236 | whatever distinct resources incarnations hold within their grants, history plus producer reserve stay free |
| AudioFormat.FrameSizes | crates/jackstay/src/audio.rs:104-116 | a frame takes one, two or four bytes per channel by its sample type, and a positioned layout has the channels its name says |
| AudioFormat.FormatRoundTrip | crates/jackstay/src/audio.rs:113-129 | every valid format survives its block header codes |
| AudioFormat.RingServesSettings | crates/jackstay/src/audio.rs:391-419 | accepted settings give a ring deep enough with no block to spare (two at least) that every consumer can map and whose own format is usable |
| AudioFormat.RingForIff | crates/jackstay/src/audio.rs:391-409 | settings are refused exactly for an invalid format, empty blocks, a depth below 250 ms or a ring no header can carry |
| AudioFormat.MapRingIff | crates/jackstay/src/audio.rs:242-281 | a header is accepted exactly when its aligned blocks hold their payload and fill the mapping |
| AudioFormat.FitsMeans | crates/jackstay/src/audio.rs:285-290 | a descriptor fits exactly when its frames fill a block as far as whole frames can and the depths agree |
| AudioFormat.UsableMeans | crates/jackstay/src/audio.rs:496-500 | a ring can be switched to a format exactly when some descriptor of it with a 32-bit frame count fits |
| AudioFormat.DescriptionFits | crates/jackstay/src/audio.rs:285-290 | the descriptor of any usable format fits the ring |
| AudioFormat.BlocksAreDisjoint | crates/jackstay/src/audio.rs:303-305 | blocks lie inside the mapping and different slots never overlap |
| AudioFormat.LatencyCovers | crates/jackstay/src/audio.rs:780-796 | the latency in blocks covers the request with none to spare, unless capped at one below the depth |
| AudioFormat.DecodeInverts | crates/jackstay/src/audio.rs:332-354 | reading back a conforming block's words gives the block |
| AudioFormat.DecodedConforms | crates/jackstay/src/audio.rs:838-842 | only conforming blocks are ever decoded |
| AudioFormat.WholeBlock | crates/jackstay/src/audio.rs:406-408 | a block of whole frames holds exactly that many frames |
| AudioFormat.PositionsConserve | crates/jackstay/src/audio.rs:509-535 | between any two blocks the sample position advances by the frames of the blocks between them |
| PlaybackWriting.PlaybackWriter.constructor | crates/jackstay/src/audio.rs:462-472 | a fresh writer has written nothing; a recording writer's first block is to carry the discontinuity |
| PlaybackWriting.PlaybackWriter.Discontinuity | crates/jackstay/src/audio.rs:490-492 | the flag is owed to exactly the next block written |
| PlaybackWriting.PlaybackWriter.Reconfigure | crates/jackstay/src/audio.rs:496-505 | a format is taken exactly when the ring can hold it, owed to the next block; a refusal changes nothing |
| PlaybackWriting.PlaybackWriter.Descriptor | crates/jackstay/src/audio.rs:474-477 | the descriptor fits the ring after any run of format switches |
| PlaybackWriting.PlaybackWriter.Write | crates/jackstay/src/audio.rs:509-535 | whole frames are published as one block with the owed flags and the running position; a refused write changes nothing |
| PlaybackWriting.PlaybackWriter.Append | crates/jackstay/src/audio.rs:516-535 | publishing the stamped block appends it to the ring and the history |
| PlaybackWriting.HistoryAppend | crates/jackstay/src/audio.rs:509-535 | a block with the next position and exactly the owed flags keeps the whole history well formed |
| PlaybackWriting.HistoryMark | crates/jackstay/src/audio.rs:490-492 | owing a discontinuity changes no block already written |
| PlaybackWriting.HistorySwitch | crates/jackstay/src/audio.rs:496-505 | owing a format switch changes no block already written |
| PlaybackReading.DeliveriesFollowWriter | crates/jackstay/src/audio.rs:825-864 | in every run against a conforming writer, delivered cursors strictly increase, each block is the one published there, a block without the gap flag succeeds the previous one, and every resynchronisation moves past what it gave up on |
| PlaybackReading.CallEnds | crates/jackstay/src/audio.rs:825-864 | in every run a call delivers the block its cursor wanted and moves on by one, or the ring had nothing at that cursor yet, or it gave up twice on blocks the writer had begun to overwrite |
| PlaybackReading.CursorMoves | crates/jackstay/src/audio.rs:798-800 | a reader starts, and restarts after giving up, exactly as far behind the writer as its latency asks and the ring has blocks, and moves otherwise only past a delivered block |
| PlaybackReading.NeverStuck | crates/jackstay/src/audio.rs:825-864 | in every reachable state the writer can go on, and so can the reader |
| PlaybackReading.CheckDelivers | crates/jackstay/src/audio.rs:332-354 | a copy that validates is the published block, and one that does not means the writer overtook the reader |
| PlaybackReading.ResyncMovesOn | crates/jackstay/src/audio.rs:798-800 | the restart point is strictly past the block given up |
| PlaybackReading.Increasing | crates/jackstay/src/audio.rs:848-860 | any two deliveries are in cursor order |
| PlaybackReading.DeliveredPositionsConserve | crates/jackstay/src/audio.rs:848-860 | between any two delivered blocks the sample position advances by the frames of every block published from the first up to the second, read or missed |
| PlaybackReading.StepKeepsInv | crates/jackstay/src/audio.rs:825-864 | every writer or reader step keeps the reader's invariant |
| Doorbell.NoLostWakeup | crates/jackstay/src/audio.rs:616-623 | in every run the waiter is never asleep with a nonzero hint unless a token is pending or a ringer is about to signal, and a bit is in the hint exactly when some ring of it has not been taken since |
| Doorbell.SleeperIsServed | crates/jackstay/src/audio.rs:681-700 | once no ringer is mid-ring, a sleeping waiter with no token has nothing to hear |
| Doorbell.StepKeepsAwaited | crates/jackstay/src/audio.rs:616-623 | each ring, signal, take, drain and sleep step keeps a sleeper reachable |
| Doorbell.StepKeepsOwed | crates/jackstay/src/audio.rs:681-700 | each step keeps the hint equal to the rings not yet taken |
| Doorbell.TakeEndsWait | crates/jackstay/src/audio.rs:689-700 | a waiter's take brings everything rung and not yet returned, ends the wait exactly when that is something, and only an empty take lets it sleep |
| Doorbell.RingsCoalesce | crates/jackstay/src/audio.rs:616-623 | a ring sets its own bit, and only the one that finds the hint empty signals |
| Doorbell.NobodyIsStuck | crates/jackstay/src/audio.rs:681-700 | a waiter, a sleeper with a token and every ringer that owes a signal can go on |
| RecordingHandover.HandoverIsSafe | crates/jackstay/src/audio.rs:956-987 | in every run of claims, drops and reads: at most one lease and one retired ring; samples come only from the ring of the epoch loaded at the start of their read; the reader's ring is always also held by the host |
| RecordingHandover.SilenceHasReason | crates/jackstay/src/audio.rs:956-987 | in every run a read for the writer admitted at its load gives that writer's samples if the reader was on its ring already or, at the switch, the lock was free and the writer still admitted; silence for an admitted writer means the lock was held or the writer admitted no longer |
| RecordingHandover.ClaimAdmits | crates/jackstay/src/audio.rs:565-577 | with no writer and the lock free, a claim left to itself admits the next epoch with its own ring |
| RecordingHandover.DropReleases | crates/jackstay/src/audio.rs:602-608 | a drop left to itself leaves no writer and no current ring |
| RecordingHandover.SwitchUnmapsNothing | crates/jackstay/src/audio.rs:956-987 | the ring a switch lets go of is still held by the host |
| RecordingHandover.RetireKeepsReaders | crates/jackstay/src/audio.rs:383-388 | retiring keeps exactly the ring the reader still uses |
| RecordingHandover.StepKeepsInv | crates/jackstay/src/audio.rs:565-608 | each store inside claim and drop, and each reader step, keeps the handover invariant |
| RecordingReading.BlocksFollowWriters | crates/jackstay/src/audio.rs:956-987 | in every run of claims, drops, switches, writes and reads, each block the source is given is the one its writer published at that cursor; writers come in admission order and none is returned to; within one writer cursors strictly increase, one by one unless the gap flag is set |
| RecordingReading.HandoverMoves | crates/jackstay/src/audio.rs:958-971 | the reader changes ring only by a switch, and then to a strictly later epoch |
| RecordingReading.RestartIsSound | crates/jackstay/src/audio.rs:969-970 | restarting at cursor 0 on a ring never read keeps the reader's invariant, whatever gap flag it carries over |
| RecordingReading.SwitchRestarts | crates/jackstay/src/audio.rs:958-971 | in every run a switch goes to a later epoch, restarts the cursor there, carries the gap flag over and touches no other ring |
| RecordingReading.StepKeepsInv | crates/jackstay/src/audio.rs:956-987 | every handover, writer and reader step keeps the rings of all epochs and the blocks given out consistent |
| TrackOffer.GoodLabelsSeparate | crates/jackstay/src/handshake.rs:111-117 | the split-and-check test accepts exactly the names whose every dot stands between label characters |
| TrackOffer.LookupsAgree | crates/jackstay/src/handshake.rs:363-372 | the two ring lookups agree when the first ring by identifier has the track's direction |
| TrackOffer.FirstRing | crates/jackstay/src/handshake.rs:254 | the lookup by identifier finds the first ring with it |
| TrackOffer.OfferableByKind | crates/jackstay/src/handshake.rs:361-372 | kind by kind: core kinds always, application kinds by their name, audio in its own direction with a descriptor fitting the first ring of that identifier and direction |
| TrackOffer.OfferRules | crates/jackstay/src/handshake.rs:252-263 | an offer is valid exactly with at most 64 audio tracks, no identifier twice, at most one video, input and affordances track, and every track offerable |
| TrackOffer.CheckOffer | crates/jackstay/src/handshake.rs:252-263 | the loop accepts exactly the valid offers: unique identifiers, one track per single kind, every track offerable, at most 64 audio tracks |
| TrackOffer.CheckSelection | crates/jackstay/src/handshake.rs:517-521 | the loop accepts exactly selections no longer than the offer with distinct identifiers |
| Handshake.FirstRefused | crates/jackstay/src/handshake.rs:286-290 | the place of the first required track that was refused, none before it, or the end when there is none |
| Handshake.VideoFrom | crates/jackstay/src/handshake.rs:356-359 | the first place where video was admitted, or that there is none |
| Handshake.AnswersByTheRules | crates/jackstay/src/handshake.rs:272-285 | unknown exactly without such a track; not writable exactly for writing one that only flows from the source; input admitted only for writing with a target; everything else but recording admitted |
| Handshake.ChannelPlace | crates/jackstay/src/handshake.rs:461-469 | the channel list has one place per admitted input or affordances track, in the order of the answers, and no other |
| Handshake.ChannelsAreAdmitted | crates/jackstay/src/handshake.rs:461-469 | a purpose has a channel exactly when a track of its kind was admitted |
| Handshake.AudioPlace | crates/jackstay/src/handshake.rs:386-394 | the audio list has one place per admitted audio track, in the order of the answers, holding that track |
| Handshake.BellIsAdmitted | crates/jackstay/src/handshake.rs:405-408 | a doorbell is expected exactly when video or playback was admitted |
| Handshake.AllServed | crates/jackstay/src/handshake.rs:326-329 | every admitted audio track's ring has something to send, in its direction, fitting the offered descriptor |
| Handshake.BellAgrees | crates/jackstay/src/handshake.rs:405-408 | host and consumer decide alike whether a doorbell crosses |
| Handshake.ChannelsDistinct | crates/jackstay/src/handshake.rs:461-469 | no purpose is given two channels, so neither side overwrites one |
| Handshake.TransfersAgree | crates/jackstay/src/handshake.rs:326-353 | for every valid resolving offer, selection and admissible answer, what the host sends is one for one, in order, what the consumer expects |
| Handshake.OneRingPerIdResolves | crates/jackstay/src/handshake.rs:254-263 | one ring per identifier makes every valid offer resolve |
| Handshake.MisresolvedTrackDisagrees | crates/jackstay/src/handshake.rs:363-420 | a playback track whose first ring by identifier is a recording ring makes the sides disagree as soon as it is selected |
| Handshake.AgreementIffResolves | crates/jackstay/src/handshake.rs:326-420 | the sides agree on every selection and answer if and only if no offered playback track is misresolved |
| HandshakeRun.Host.Claim | crates/jackstay/src/audio.rs:565-577 | a lease is given exactly for a write to a recording ring that has no writer |
| HandshakeRun.Host.AnswerAll | crates/jackstay/src/handshake.rs:272-285 | every answer is one the rules allow; a writable recording track is turned away only while its ring has a writer; leases are new, exactly what was added, and each that of an admitted recording track |
| HandshakeRun.Host.Accept | crates/jackstay/src/handshake.rs:251-353 | each verdict's exact condition, the transfers sent, and that anything but acceptance leaves no lease behind |
| HandshakeRun.SendRings | crates/jackstay/src/handshake.rs:398-420 | the doorbell pair first exactly when video or a playback ring is passed, then one object per ring |
| HandshakeRun.ReceiveRings | crates/jackstay/src/handshake.rs:430-457 | expected objects map; whatever arrives, no ring that disagrees with its descriptor is kept |
| HandshakeRun.MapRings | crates/jackstay/src/handshake.rs:448-455 | mapping succeeds exactly when every object maps and fits, and each track gets its own ring in order |
| HandshakeRun.OnlyPlace | crates/jackstay/src/handshake.rs:448-455 | splitting the mapped rings by direction keeps every track, in order |
| HandshakeRun.ReceiveChannels | crates/jackstay/src/handshake.rs:542-552 | channels sent in the derived order land as input and affordances respectively |
| HandshakeRun.Select | crates/jackstay/src/handshake.rs:517-590 | the consumer's verdict for any answer and any transfers, connecting when they are the expected ones |
| HandshakeRun.Run | crates/jackstay/src/handshake.rs:251-590 | run against each other, both sides reject the selection, name the same refusal or both succeed; then the consumer has an input or affordances channel exactly when such a track was admitted, a doorbell exactly when video or playback was, and fitting rings of exactly the admitted audio tracks; a failed run leaves the leases as they were |
| Framing.LengthRoundTrip | crates/jackstay/src/framing.rs:36 | the big-endian prefix reads back as the length |
| Framing.BytesRoundTrip | crates/jackstay/src/framing.rs:76 | and every four bytes are the prefix of what they read as |
| Framing.PrefixOrder | crates/jackstay/src/framing.rs:36 | the most significant byte comes first: prefixes order as their bytes do |
| Framing.DeliveredIsPrefix | crates/jackstay/src/framing.rs:73-86 | messages cut off the front of a stream are the front of the list it encodes |
| Framing.Framed.Send | crates/jackstay/src/framing.rs:30-41 | a message is queued whole exactly when it and the queue stay in bounds; otherwise nothing changes |
| Framing.Framed.Flush | crates/jackstay/src/framing.rs:42-60 | under any partial writes, bytes go out in order, none twice, `queued` stays the unsent count, every write that took bytes made progress, and it stops only when empty, blocked or failed |
| Framing.Framed.Receive | crates/jackstay/src/framing.rs:73-95 | under any chunking every byte read is kept, a delivery is the next whole frame, nothing means none is whole, and each error's condition |
| Framing.RoundTrip | crates/jackstay/src/framing.rs:30-95 | a receiver of what a sender handed over has delivered exactly a prefix of the accepted messages, never sees a bad size, and its next whole frame is the next message |
| Framing.AllArrive | crates/jackstay/src/framing.rs:73-95 | once all bytes arrived and no whole frame is left, every message was delivered |
| Outbox.Outbox.Enqueue | crates/jackstay/src/affordances.rs:386-398 | a value is queued exactly when it and both layers together fit, and the byte count stays exact |
| Outbox.Outbox.Drain | crates/jackstay/src/affordances.rs:500-507 | up to eight values move to the wire oldest first, the total is conserved and the wire rejects none |
| Outbox.Outbox.Flush | crates/jackstay/src/affordances.rs:508 | flushing outside the lock keeps the budget although the recorded wire count lags |
| Outbox.Outbox.AfterFlush | crates/jackstay/src/affordances.rs:509 | recording the wire count afterwards keeps the budget |
| Outbox.BudgetHolds | crates/jackstay/src/affordances.rs:386-398 | in every reachable state the byte count is that of the queued encoded sizes, and with the wire's it is at most 524288 |
| Outbox.WireHasRoom | crates/jackstay/src/affordances.rs:500-505 | every queued value will fit the wire whatever is ahead of it |
| Snapshots.BodyParses | crates/jackstay/src/affordances.rs:152-162 | the body of a snapshot parses exactly when its values are sound, to its normal form |
| Snapshots.ParseIsCanonical | crates/jackstay/src/affordances.rs:185-258 | whatever JSON comes in, only snapshots with sound values and known vocabulary come out |
| Snapshots.NormalIsFixed | crates/jackstay/src/affordances.rs:201-231 | a snapshot is canonical exactly when it is sound and its own normal form |
| Snapshots.OnlyRequiredKeysCount | crates/jackstay/src/affordances.rs:189-200 | a body missing a required key is malformed even where null is allowed, and other keys change nothing |
| Snapshots.ParsedFields | crates/jackstay/src/affordances.rs:205-257 | each field of a parsed snapshot comes from the key of its own name |
| Snapshots.IntegersReadAsReals | crates/jackstay/src/affordances.rs:170-172 | a number written as an integer reads as the same number written with a point, anywhere in a body |
| Snapshots.UnknownArtwork | crates/jackstay/src/affordances.rs:220-225 | an artwork of an unknown kind is read as none, one without a kind is malformed |
| Snapshots.ParseIsIdempotent | crates/jackstay/src/affordances.rs:185-258 | parsing the body of a parsed snapshot gives that snapshot back |
| AffordanceMessages.PrepareNormalises | crates/jackstay/src/affordances.rs:399-408 | publishing accepts exactly sound snapshots of the domains this end owns, and sends their normal form |
| AffordanceMessages.DecodeInvertsWire | crates/jackstay/src/affordances.rs:443-465 | the peer reads a canonical snapshot's message back as that snapshot |
| AffordanceMessages.VerbArrives | crates/jackstay/src/affordances.rs:466-493 | a verb the host lets out is delivered exactly when the producer's current snapshot enables it, and otherwise ignored, never closing the channel |
| AffordanceMessages.DecodeIsSafe | crates/jackstay/src/affordances.rs:443-496 | for any JSON at all, an event is a canonical snapshot of the peer's domain or an enabled, well-formed verb at the producer |
| AffordanceMessages.GatePrecedesBody | crates/jackstay/src/affordances.rs:470-478 | an unknown, withdrawn or disabled verb is ignored whatever its body |
| AffordanceMessages.ScrollVerbByAxis | crates/jackstay/src/affordances.rs:487-491 | a scroll verb the cached snapshot switches on arrives exactly when the axis it names is scrollable |
| AffordanceMessages.OtherVerbByCaps | crates/jackstay/src/affordances.rs:475-486 | a media or navigation verb arrives exactly when the cached snapshot's capabilities switch it on |
| AffordanceMessages.SendableByVerb | crates/jackstay/src/affordances.rs:305-335 | the bodies a host may send, verb by verb |
| AffordanceMessages.EnvelopeRules | crates/jackstay/src/affordances.rs:443-469 | which envelopes close the channel, which are ignored and which reach their body |
| AffordanceMessages.SnapshotBody | crates/jackstay/src/affordances.rs:461-464 | a snapshot message is read from its body alone, and closes the channel when it has none or it does not parse |
| AffordanceChannel.ItemArrives | crates/jackstay/src/affordances.rs:443-496 | to the peer, a proper snapshot means itself and a proper verb means itself exactly when the cache enables it |
| AffordanceChannel.AnyJsonIsSafe | crates/jackstay/src/affordances.rs:443-496 | any JSON at all means a snapshot of a domain the peer owns, an enabled verb at the producer, or nothing; its snapshot does not depend on the cache |
| AffordanceChannel.AffordancesAreLawful | crates/jackstay/src/affordances.rs:399-496 | the affordances messages keep the laws of a snapshot channel, whatever the codec, so everything below holds of them |
| AffordanceChannel.EventCosts | crates/jackstay/src/affordances.rs:436-442 | an event takes the room of its message, a verb that of its text, name and 64 bytes, and only the closing event is free |
| AffordanceChannel.Publish | crates/jackstay/src/affordances.rs:399-417 | exactly the sound snapshots of this end's domains go out while there is room, in their normal form, sent and cached or neither |
| EventQueue.EventQueue.Push | crates/jackstay/src/affordances.rs:514-526 | an event is queued exactly while there is room, and the byte count stays exact |
| EventQueue.EventQueue.End | crates/jackstay/src/affordances.rs:371-373 | what waits is dropped and one closing event is left |
| EventQueue.EventQueue.Poll | crates/jackstay/src/affordances.rs:418-423 | events come out in order and their byte count stays exact |
| SnapshotChannel.Channel.Enqueue | crates/jackstay/src/affordances.rs:386-398 | an item is sent exactly when the channel is open and has room; overflow stops the channel |
| SnapshotChannel.Channel.Publish | crates/jackstay/src/affordances.rs:399-417 | the prepared form is sent and cached, both or neither |
| SnapshotChannel.Channel.Send | crates/jackstay/src/affordances.rs:564-570 | a verb is sent exactly when this end may send it and there is room |
| SnapshotChannel.Channel.Act | crates/jackstay/src/affordances.rs:512-527 | a received value changes cache and events as it means, within the event bounds; it fails exactly when malformed or without room |
| SnapshotChannel.Channel.NextValue | crates/jackstay/src/affordances.rs:510-511 | the next whole value is read outside the lock; a failure is one of the bytes or of the transport |
| SnapshotChannel.Channel.Handle | crates/jackstay/src/affordances.rs:512-527 | acting on the value read changes what the caller sees exactly as the value means, or ends the channel exactly when it is malformed or has no room |
| SnapshotChannel.Channel.Fail | crates/jackstay/src/affordances.rs:366-374 | the end of the worker clears the cache and leaves one closing event |
| SnapshotChannel.Channel.Poll | crates/jackstay/src/affordances.rs:418-423 | the caller gets the oldest waiting event, which joins the history of events given out |
| SnapshotChannel.UpdateKeepsCache | crates/jackstay/src/affordances.rs:518-524 | caching a snapshot makes it the latest of its domain and leaves every other domain alone |
| SnapshotChannel.ObservedIsSent | crates/jackstay/src/affordances.rs:443-496 | the snapshots a peer observes are exactly those sent, in order |
| SnapshotChannel.TakenIsPrefix | crates/jackstay/src/affordances.rs:497-528 | over the framed wire, the values one end has acted on are a prefix of those the other sent |
| SnapshotChannel.Replicates | crates/jackstay/src/affordances.rs:399-417 | the receiver's cache of each domain is the latest state among exactly the items it has taken |
| SnapshotChannel.CachesAgree | crates/jackstay/src/affordances.rs:399-417 | once everything sent has been taken, both caches agree on every domain the sender owns |
| SnapshotChannel.NeverMalformed | crates/jackstay/src/affordances.rs:443-528 | between conforming ends the next whole frame parses as the next item and means that item |
| SnapshotChannel.PolledWasSentAndEnabled | crates/jackstay/src/affordances.rs:466-527 | every event Poll ever returned, but the closing one, is an item the peer sent, each at most once and in order; a verb was, when queued, enabled by the latest snapshot this end had published for its domain |

## Left out

- Weak memory ordering, fences, cache lines and the byte layout of headers and records: loads and stores are sequentially consistent steps on words.
- Saturation of 64-bit cursors, positions and sequences: they are unbounded naturals here; the source reaches the limit only after 2^64 publications.
- `ControlPage`: the config snapshot, the consumer cursor table, header validation and read-only remapping, which would only add easy members.
- `PlaybackReading` and `VideoRing`: the reader's copy loop is a step relation on values, not a method on an object, because the writer runs between its loads; one audio reader suffices since readers store nothing shared.
- `PlaybackReading`: the gap and underrun counters and `available`.
- `Doorbell`: cancellation and timeouts of `wait`, and the registration of bells with rings.
- `RecordingHandover` and `RecordingReading`: a claim that fails because a fresh ring cannot be created, and the contents of the silent blocks read without a writer.
- `NativeProducer`: attach grants, export of current and retired pools, timestamps; the surface backend appears as use counts and success flags, and the control page as the log of its entries.
- `Admission`: pending allocations (always none here) and allocation replacement.
- Handshake I/O failures, deadlines, peer credentials, notices and late selection; a selection's answer may depend on other handshakes only through which recording rings are free.
- HandshakeRun.Host.Accept: the claims of one call are taken without another handshake's between them; `Handshake.TransfersAgree` covers every answer such interleaving could produce.
- CBOR and JSON text: a message is its value, and `AffordanceChannel` takes the text codec as a parameter that must read each sent value back; whether a particular double survives its decimal text is up to that codec.
- Rounding of 64-bit floats: finite numbers are reals, other values are one `NonFinite`.
- `idle` on the framed wire, worker threads and sleeping between polls.
- The acquisition arena, its sockets, the input session and the native lease are not part of this model.
- Operating-system wrappers, the C interface, viewers, the graph and state tables, and the producer pump.
