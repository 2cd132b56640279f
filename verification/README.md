# Noctweave protocol base: a verified model

Noctweave sends end-to-end encrypted messages between two parties that know each
other only through one disposable relationship. A relationship is set up by a
pairing over two rendezvous lanes, sends through opaque relay routes whose
packets carry padded fragments, keeps an outbox that survives crashes, and can be
burned. This project models the state machines and codecs underneath and proves
what they keep over every run.

## How it is built

One module per component. A component that the program writes as a pure function
is a datatype with functions. A component that the program writes as an object
updated in place is a class whose methods are proved against a specification
function, with the properties proved about that function as lemmas:

* `Bytes`, `PacketFrame`, `PacketSealing`: octet layout, fragment frames, sealing.
* `Reassembly`, `Reassembler`, `Snapshots`, `ReplayHorizon`, `ReassemblerRuns`,
  `ReassemblyHistory`, `Delivery`, `DeliveryRoom`: bounded reassembly, its persisted
  form, every run of it, its answers read off what came before, and what it delivers.
* `Outbox`, `OutboxHistory`, `IntentHistory`, `OutboxRuntime`, `OutboxLimits`: the
  durable outbox, and each retained intent read off the run that made it.
* `SyncLog`, `Inbound`, `InboundEffects`, `InboundLimits`: the hash-chained packet log
  and receiving it exactly once, with its effects read off the records.
* `Pairing`, `PairingRuns`, `PairingLimits`: the two pairing machines and their lanes.
* `RouteLifecycle`: create, renew, tear down and use an opaque route.
* `AnchorStore`, `BrowserVault`, `Burn`, `BurnRuntime`: compare-and-swap storage,
  the application vault on it, and the local burn.
* `CallMedia`, `CallSignals`: replay windows, sender sequences, call signalling.
* `SecurityKeyCbor`, `DerSignature`: the strict parsers of security-key ceremonies.
* `Wrappers`, `Collections`: result shapes and facts about sequences and sets.

Where a statement is about every run, a step is one save, one packet handed to a
relay, or one call on a store, so that a crash between any two of them is a run
that stops there and a restart is a run that goes on. A trace lists the worlds of a
run, one before each step and one at its end, and a statement about every world of
every trace is one about every crash point. Classes with a `Consistent`
predicate record each such step, and their methods prove that what the object
holds is the outcome of the steps recorded.

Conventions:

* A 32-octet identifier or digest is the natural number its octets spell
  (`PacketFrame.IdBytesRoundTrip`), which stands for its canonical base64 text.
* Authenticated encryption, message authentication codes and signatures are free
  terms: a ciphertext names what it was sealed from, and opens only under the same
  key and associated data. A hash is an arbitrary function; the only places that
  need it free of collisions say so in a hypothesis (`SyncLog.CollisionFree`).
  Digests that the program only compares are the values they digest.
* Timestamps are integers in milliseconds.
* Random identifiers are inputs; where the program relies on their being new, the
  lemma says so.
* Relay answers, failing saves and what other tabs do are unconstrained. Where a
  contract says when a call succeeds, a ghost counter of what the outside refused or
  moved stands beside the object, and the contract says what happens while it does
  not grow.

## What turned out weaker than it looks

* A bootstrap intent that failed for good is discarded like any other intent and
  its session stays in use: `OutboxLimits.BootstrapOrderCanFail` gives the run,
  `OutboxHistory.BootstrapPrecedes` the exact condition.
* Publishing finds its intent once and keeps the index over every save, and a save
  that trims for bytes removes what stands before it. Then the index names the next
  intent, which is sent and accepted out of order and before its bootstrap:
  `OutboxLimits.ByteBudgetShiftsIndex` gives the run, and
  `OutboxHistory.PublishingIndexIsStable` says exactly which saves do that (the
  candidate is over the byte budget and something stands before the intent). Order
  and bootstrap order are proved of the runs without such a save; exact retry, the
  order of sequences and the bound on what is retained hold of every run.
* `discard` answers with what stands at the old index after compaction:
  `OutboxLimits.DiscardAnswersItself` says exactly when that is the discarded intent,
  `OutboxLimits.DiscardCanMissItself` gives a valid state where it is none.
* Session eviction can build a candidate that saving refuses, so that no session can
  be opened at all: `OutboxLimits.EvictionCanBeRefused` gives a valid state,
  `OutboxLimits.EvictionPassesExactly` says exactly when the save goes through: what
  compaction leaves is within the byte budget and no accepted intent in it belongs
  to the evicted session. `OutboxLimits.EvictionPassesUntrimmed` says it of the state
  before the call, when neither bound trims.
* A packet is quarantined without looking whether it is quarantined already, and a
  state that holds one twice is refused, so a page can be refused whenever it comes:
  `InboundLimits.RefusedPage` gives the run, `InboundLimits.PageIsSavedExactly` says
  exactly which pages are saved.
* A snapshot with a full pending bundle is accepted although no run produces one
  (`Snapshots.RestoreAcceptsFullBundle`, exactly which by
  `Snapshots.RestoredMissesExactly`), and such a bundle is never completed by any
  packet (`ReassemblerRuns.FullBundleNeverCompletes`).
* A new route's lease may claim any renewal time, so its expiry can lie any time
  ahead (`RouteLifecycle.CreationExpiryIsUnbounded`); `RouteLifecycle.CreationExpiry`
  says for which leases it keeps the bound of a renewal at every accepting time.
* A digest mismatch retires its bundle in memory only, because an update of the
  saved reassembler that throws is thrown away: `Inbound.MismatchRetirementIsLost`,
  met by the record of `InboundLimits.MismatchCanHappen`.
* A record digest does not bind the time a send proof claims:
  `SyncLog.ProofTimeIsFree`.
* The anchored store stops later commits by the erasure mark alone:
  `AnchorStore.TombstoneItselfIsNoBarrier`.
* A ready side that crashed before recording the answer to an append can never
  finalize once its peer finalized: `PairingLimits.OffererLeftBehind` gives the run,
  `PairingRuns.LateAcknowledgementBlocksFinalizing` the exact condition over all
  continuations, `PairingRuns.OpenLaneFinalizes` the other side of it.
* Of two signals under one role and sequence, a conflict is reported only against
  the role's last signal; an older one is answered as stale:
  `CallSignals.OlderConflictIsStale`, exactly by `CallSignals.ForkExactly`.
* A text in a security-key structure can gain or lose a leading byte order mark
  without any difference in the value handed out: `SecurityKeyCbor.TwoEncodingsOfNothing`,
  exactly for which values by `SecurityKeyCbor.OnlyEncodingExactly`.
* A burn erases only what the caller lists
  (`Burn.UncoveredRelationshipSurvives`), can burn a later vault than the one it
  began on (`Burn.LateExecutorBurnsAnotherVault`, exactly when by
  `Burn.BurnsItsOwnVaultExactly`), and never gets past a
  relationship whose state disagreed with its anchor before it was blocked
  (`Burn.DamagedIsNeverPassed`), although the comment in
  src/durable-pairwise-messaging-v2.js:282-284 wants such a scope erased too: the
  code is followed.

## Model

| member | source | states |
|---|---|---|
| Bytes.Uint64Bytes | src/private-v2.js:114-125 | the loop fills eight octets with a value of at most 64 bits, big-endian |
| Bytes.ConcatBytes | src/private-v2.js:88-97 | copying at a moving offset yields all parts in order, nothing lost or repeated |
| Bytes.ReadsWhatWasWritten | src/private-v2.js:99-125 | reading a written integer that fits the width gives it back |
| Bytes.WritesWhatWasRead | src/private-v2.js:99-125 | writing a read integer gives back the same octets |
| PacketFrame.DecodeFragment | src/opaque-route-packet-v2.js:1007-1063 | the cursor-moving decoder accepts exactly the frames of the fixed layout and reads each field from its place |
| PacketFrame.DecodeUndoesEncode | src/opaque-route-packet-v2.js:961-1063 | decoding an encoded frame gives every field back, for every valid fragment and padding |
| PacketFrame.EncodeUndoesDecode | src/opaque-route-packet-v2.js:961-1063 | an accepted frame is the encoding of what was read with its own tail as padding |
| PacketFrame.FrameLayout | src/opaque-route-packet-v2.js:961-1063 | a frame is accepted exactly with its mark, every field at its offset, sizes that fit and at least 32 octets of padding |
| PacketFrame.EncodesExactly | src/opaque-route-packet-v2.js:961-1005 | which frames are written, and the error of every other request |
| PacketSealing.AuthenticatedDataInjective | src/opaque-route-packet-v2.js:148-166 | associated data names one route, packet, revision and bucket and no other |
| PacketSealing.ValidExactly | src/opaque-route-packet-v2.js:168-228 | a packet is valid exactly with a named route and packet, the size of a bucket and the digest of its own operation |
| PacketSealing.OpenValidatedPacket | src/opaque-route-packet-v2.js:927-959 | opening decrypts under the packet's own associated data and then accepts exactly the valid frames |
| PacketSealing.OpensOnlyInPlace | src/opaque-route-packet-v2.js:927-959 | a sealed frame opens only in its own packet, under its own key and route revision, and is refused anywhere else |
| PacketSealing.PiecesTilePayload | src/opaque-route-packet-v2.js:301-330 | the fragments of a bundle concatenate to exactly its payload |
| PacketSealing.SealableExactly | src/opaque-route-packet-v2.js:273-300 | a payload is sealed exactly up to 64 MiB and 4096 packets, each with room for 150 octets less than its bucket |
| PacketSealing.SealBundle | src/opaque-route-packet-v2.js:273-392 | sealing succeeds exactly on sealable requests, and packet i is a valid packet that opens to fragment i, sealed with the nonces and padding drawn for it, with a send proof that verifies |
| PacketSealing.RefreshSendProof | src/opaque-route-packet-v2.js:230-271 | a refreshed packet is the same on the relay: same identifier, ciphertext and operation digest, with an unexpired proof, and a new proof verifies under the send capability |
| PacketSealing.ExpiresExactly | src/opaque-route-packet-v2.js:230-271 | a send proof is expired exactly when it is more than five minutes away from its time |
| Reassembly.ConsumeKeepsValid | src/opaque-route-packet-v2.js:745-853 | any packet whatever keeps the invariant: bytes are the sum over pending, packet digests are the disjoint union of pending identifiers, orders list exactly the keys, pending and completed are disjoint, every pending bundle incomplete |
| Reassembly.InitialExactly | src/opaque-route-packet-v2.js:458-476 | a reassembler is constructed exactly with room for 1 to 256 bundles and 1 octet to 64 MiB, and begins empty |
| Reassembly.RejectionLeavesState | src/opaque-route-packet-v2.js:745-853 | a refused or repeated packet changes nothing, unless it exposed a digest mismatch |
| ReassemblerRuns.StateStaysConsistent | src/opaque-route-packet-v2.js:453-912 | from the constructor, after any operations on any packets: byte count, packet digests, order lists, disjointness, bounds and incompleteness all hold |
| ReassemblerRuns.RefusalsChangeNothing | src/opaque-route-packet-v2.js:745-853 | over every run an error other than a digest mismatch, or a duplicate, leaves the state as it was |
| ReassemblerRuns.SavingIsLossless | src/opaque-route-packet-v2.js:483-731 | at every point of every run the state can be saved, is accepted again and restores to itself |
| ReassemblyHistory.AnswersByHistory | src/opaque-route-packet-v2.js:745-853 | the answer to any packet at any point of any run, read off the packets accepted before: invalid, repeat, conflict, over the limits, stored, complete or mismatched |
| ReassemblyHistory.CompletedIsVerified | src/opaque-route-packet-v2.js:826-853 | whatever completes, in any run and of any packets, is the payloads on record in order and has the digest it states |
| Reassembly.MismatchRetiresBundle | src/opaque-route-packet-v2.js:834-842 | a digest mismatch retires exactly the bundle just filled, leaving its tombstone |
| Reassembly.AssembledLength | src/opaque-route-packet-v2.js:826-833 | a full bundle reassembles to its declared size, so the length check after assembly never fires |
| Reassembly.DiscardKeepsValid | src/opaque-route-packet-v2.js:878-912 | discarding a pending bundle keeps the whole invariant |
| Reassembly.RememberTerminalKeepsValid | src/opaque-route-packet-v2.js:902-912 | remembering a finished bundle keeps the invariant and at most 1024 tombstones |
| Reassembler.OpaqueRoutePacketReassembler.Consume | src/opaque-route-packet-v2.js:745-853 | the object's six fields and its answer are what the specification of a consumption says |
| Reassembler.OpaqueRoutePacketReassembler.FinishBundle | src/opaque-route-packet-v2.js:818-853 | completing, or retiring on a mismatch, as specified |
| Reassembler.OpaqueRoutePacketReassembler.StoreFragment | src/opaque-route-packet-v2.js:774-816 | storing a fragment as specified |
| Reassembler.OpaqueRoutePacketReassembler.RemovePending | src/opaque-route-packet-v2.js:855-868 | a removed bundle leaves map, order, packet digests and byte count together |
| Reassembler.OpaqueRoutePacketReassembler.RememberTerminalBundle | src/opaque-route-packet-v2.js:902-912 | tombstones are kept in order and the oldest goes when there are too many |
| Reassembler.OpaqueRoutePacketReassembler.DiscardPendingBundles | src/opaque-route-packet-v2.js:870-876 | all partial payloads go, every tombstone stays |
| Reassembler.OpaqueRoutePacketReassembler.DiscardPendingBundle | src/opaque-route-packet-v2.js:885-892 | a pending bundle is retired with its tombstone, an unknown one changes nothing |
| Reassembler.OpaqueRoutePacketReassembler.DiscardOldestPendingBundle | src/opaque-route-packet-v2.js:878-883 | the bundle retired is the first of the order |
| Reassembler.OpaqueRoutePacketReassembler.Restore | src/opaque-route-packet-v2.js:483-682 | restoring succeeds exactly on accepted snapshots and yields the state they describe |
| Reassembler.OpaqueRoutePacketReassembler.Snapshot | src/opaque-route-packet-v2.js:684-731 | every reachable object can be saved, without changing it |
| Snapshots.RestoredIsValid | src/opaque-route-packet-v2.js:483-682 | every accepted snapshot restores to a state with the whole invariant |
| Snapshots.AcceptsExactly | src/opaque-route-packet-v2.js:483-682 | which snapshots are accepted: limits and counts in range, each bundle sound, nothing repeated, packet digests naming exactly the packets held, fragments within the byte budget |
| Snapshots.RestoreUndoesSnapshot | src/opaque-route-packet-v2.js:483-731 | the snapshot of every valid state is accepted and restores to that very state, so every later answer is the same |
| Snapshots.RestoreAcceptsFullBundle | src/opaque-route-packet-v2.js:553-557 | a concrete accepted snapshot whose pending bundle misses nothing |
| Snapshots.RestoredMissesExactly | src/opaque-route-packet-v2.js:530-600 | of every accepted snapshot: each pending bundle misses a fragment after restoring exactly when each saved bundle lists fewer fragments than it counts |
| ReassemblerRuns.FullBundleNeverCompletes | src/opaque-route-packet-v2.js:745-853 | a full pending bundle of an accepted snapshot is never completed by any packets; it stays as it is until discarded, and its own packets are repeats or conflicts |
| ReplayHorizon.ReplaysAreFarApart | src/opaque-route-packet-v2.js:763-772 | from the constructor, two completions of one bundle have at least 1024 retirements of other bundles between them |
| Delivery.DeliversAsUnlimited | src/opaque-route-packet-v2.js:745-853 | any reordering, interleaving and duplication of sealed packets is answered as a receiver with unlimited memory would |
| Delivery.CompletesExactlyOnce | src/opaque-route-packet-v2.js:273-392 | a bundle all of whose packets arrive completes once and only once, with the payload that was sealed |
| DeliveryRoom.RoomIsExact | src/opaque-route-packet-v2.js:791-802 | a packet is refused for lack of room exactly when, by the arrivals alone, too many bundles are unfinished or too many octets held |
| DeliveryRoom.AnswersWithinCapacity | src/opaque-route-packet-v2.js:745-853 | within capacity and horizon, both read off the arrivals, each answer is the one the packets already seen call for |
| DeliveryRoom.DeliversWithinCapacity | src/opaque-route-packet-v2.js:745-853 | within capacity and horizon every bundle all of whose packets arrive is delivered once and only once, with the payload that was sealed |
| Outbox.CompactTerminalKeeps | src/durable-pairwise-messaging-v2.js:2740-2761 | length compaction keeps the order and every pending intent |
| Outbox.CompactTerminalReaches | src/durable-pairwise-messaging-v2.js:2740-2761 | compaction of an outbox in which no failure stands far behind a blocking intent gets down to its target |
| Outbox.CompactionTrims | src/durable-pairwise-messaging-v2.js:2787-2821 | a save only trims: order, pending intents, the active session and every session a retained intent needs stay |
| Outbox.VictimsInOrder | src/durable-pairwise-messaging-v2.js:2787-2821 | what a save over its byte budget gives up, in order: intents, then the lists of records one after the other from their oldest, then sessions; nothing within the budget, and it stops over it only when nothing can go |
| Outbox.SavedOutboxIsBounded | src/durable-pairwise-messaging-v2.js:1619-1665 | what is saved over an outbox whose failures stand at most 144 places behind any blocking intent holds at most its pending intents and 256 more |
| Outbox.ReserveKeepsProtected | src/durable-pairwise-messaging-v2.js:2763-2780 | reservation removes only sessions without publication work, and then there is room |
| OutboxHistory.OutboxStaysOrdered | src/durable-pairwise-messaging-v2.js:908-1120 | in every saved state of every run whose saves in the middle of publishing kept the index on its intent, nothing behind a blocking intent was published, at most one intent failed for good while it blocks |
| OutboxHistory.SequencesStayOrdered | src/durable-pairwise-messaging-v2.js:908-1120 | in every saved state of every run sequences strictly increase and stay below the next one, wherever a save moved the index |
| OutboxHistory.OutboxStaysBounded | src/durable-pairwise-messaging-v2.js:1619-1665 | every saved state of every run, wherever a save moved the index, holds at most 256 more than its pending intents, of which there are at most 32 |
| OutboxHistory.RetryIsExact | src/durable-pairwise-messaging-v2.js:941-1009 | in every run, also when the kept index names another intent: what relays took of a delivery includes every packet before its progress and none beyond the next, and each attempt carried the saved packet |
| OutboxHistory.AttemptsNeverDiffer | src/durable-pairwise-messaging-v2.js:941-1009 | in every run two attempts at one place differ at most in their send proof |
| OutboxHistory.BootstrapPrecedes | src/durable-pairwise-messaging-v2.js:499-514 | while the index was kept, an accepted intent of a session opened here follows its bootstrap's acceptance if and only if the bootstrap did not fail for good |
| OutboxHistory.PublishingIndexIsStable | src/durable-pairwise-messaging-v2.js:921-1051 | a save in the middle of publishing leaves the intent at its index if and only if it stands first or the candidate is within the byte budget |
| OutboxHistory.DiscardedBootstrapLeavesNothing | src/durable-pairwise-messaging-v2.js:1058-1120 | discarding an unsent bootstrap removes its session and discards all intents in it, and touches no other intent |
| OutboxHistory.RunHasTrace | src/durable-pairwise-messaging-v2.js:1540-1665 | whatever a runtime object recorded is a trace, and keeps the index as that run does, so all of the above holds at each of its crash points |
| IntentHistory.IntentIsItsHistory | src/durable-pairwise-messaging-v2.js:470-1120 | every retained intent of every run is what one preparation asked for, in the session then in use or opened, with the packets of that request; status, attempts and progress are those of the actions taken on it |
| IntentHistory.RetryIsAnswered | src/durable-pairwise-messaging-v2.js:483-494 | in every run, while an intent is retained its own request is answered with it, other content or mark under its transaction is a conflict, and no other transaction is known |
| IntentHistory.FailsExactly | src/durable-pairwise-messaging-v2.js:2729-2780 | at every point of every run a new intent finds no room exactly when 32 are pending, no session exactly when none is in use and each of four has work, and otherwise fails only without a route |
| IntentHistory.DiscardRefusedExactly | src/durable-pairwise-messaging-v2.js:1058-1102 | at every point of every run a discard is refused exactly after acceptance, for a control, for a bootstrap that a route took or whose session has an accepted intent, and for an unknown transaction |
| OutboxLimits.BootstrapOrderCanFail | src/durable-pairwise-messaging-v2.js:1043-1083 | the run in which a later intent is accepted though no bootstrap of its session ever was |
| OutboxLimits.ByteBudgetShiftsIndex | src/durable-pairwise-messaging-v2.js:921-1051 | the run in which a full byte budget puts the next intent where the published one stood, and it is accepted before the blocking one and before the bootstrap of its session |
| OutboxLimits.DiscardAnswersItself | src/durable-pairwise-messaging-v2.js:1117-1118 | the answer names the discarded intent exactly when the candidate fits its length bound and the byte budget |
| OutboxLimits.DiscardCanMissItself | src/durable-pairwise-messaging-v2.js:1117-1118 | a valid outbox whose only pending intent is discarded, durably, and the answer finds no intent at its index |
| OutboxLimits.EvictionPassesExactly | src/durable-pairwise-messaging-v2.js:2763-2780 | preparing with four sessions and none active is saved exactly when what compaction leaves is within the byte budget and holds no relay-accepted intent of the evicted session |
| OutboxLimits.EvictionPassesUntrimmed | src/durable-pairwise-messaging-v2.js:2763-2780 | the same on the state before the call, when neither bound trims: saved exactly when no relay-accepted intent of the state belongs to the first session that nothing protects |
| OutboxLimits.EvictionCanBeRefused | src/durable-pairwise-messaging-v2.js:2005-2008 | a valid state with one accepted intent and four sessions, in which the save of a new session is refused |
| OutboxRuntime.DurablePairwiseOutbox.SaveCandidate | src/durable-pairwise-messaging-v2.js:1619-1665 | a candidate becomes durable whole, compacted and validated, or not at all; it is saved exactly when its generation is left, what compaction leaves is valid and within the byte budget, and the storage does not refuse |
| OutboxRuntime.DurablePairwiseOutbox.CompactTerminalIntents | src/durable-pairwise-messaging-v2.js:2740-2753 | the loop of splices computes the specified compaction |
| OutboxRuntime.DurablePairwiseOutbox.CompactCandidateState | src/durable-pairwise-messaging-v2.js:2787-2821 | the byte-budget loop computes the specified trimming, in its order of victims |
| OutboxRuntime.DurablePairwiseOutbox.ReserveSessionCapacity | src/durable-pairwise-messaging-v2.js:2763-2780 | the eviction loop computes the specified reservation |
| OutboxRuntime.DurablePairwiseOutbox.Prepare | src/durable-pairwise-messaging-v2.js:470-661 | an intent is durable before any relay sees it, with the content, mark and deliveries of the request, in the session in use or a new one; a known transaction answers with its own intent or a conflict and changes nothing; each failure is said exactly |
| OutboxRuntime.DurablePairwiseOutbox.RefreshPacket | src/durable-pairwise-messaging-v2.js:955-980 | an expired proof is renewed and saved before it is sent, as the specified save says; on the same packet as long as the index names its intent |
| OutboxRuntime.DurablePairwiseOutbox.SendNextPacket | src/durable-pairwise-messaging-v2.js:952-1005 | one turn: renew, send the saved packet at the kept index, save the receipt; only then does the delivery move on by one packet |
| OutboxRuntime.DurablePairwiseOutbox.PublishDelivery | src/durable-pairwise-messaging-v2.js:941-1009 | a delivery's loop ends with every packet taken or with a failure, whatever intent the kept index names by then; a failure means that something outside refused or that the index moved |
| OutboxRuntime.DurablePairwiseOutbox.PublishIntent | src/durable-pairwise-messaging-v2.js:921-1051 | with only publishing actions taken, every route of the intent at the kept index is tried and it is accepted or failed; it is the one the turn began with unless a save moved it, and an index that names none ends the call; when nothing outside refuses and the index stays, it is accepted |
| OutboxRuntime.DurablePairwiseOutbox.SettleIntent | src/durable-pairwise-messaging-v2.js:1011-1051 | the intent at the kept index is saved as accepted exactly when some route accepted, else as failed, for good exactly when every failure was one |
| OutboxRuntime.DurablePairwiseOutbox.ResumeOutbound | src/durable-pairwise-messaging-v2.js:908-1056 | intents are published in order until one fails, the limit is reached or none is left, the count answered is the number accepted, and the outbox is in order unless a save moved the index; when nothing outside refuses it goes on to the limit, the end or an intent that failed for good |
| OutboxRuntime.DurablePairwiseOutbox.Discard | src/durable-pairwise-messaging-v2.js:1058-1120 | discards as specified and answers with what stands at the old index; it fails to save exactly when the storage refuses or the candidate cannot be saved |
| OutboxRuntime.DurablePairwiseOutbox.Restart | src/durable-pairwise-messaging-v2.js:1540-1617 | a new process continues the same run |
| SyncLog.ValidateShape | src/opaque-route-relay-v2.js:341-464 | the validation loop accepts exactly the pages whose records chain |
| SyncLog.Validate | src/opaque-route-relay-v2.js:466-489 | a page is accepted exactly when it chains, stays on the route and its digests are those of its records |
| SyncLog.AcceptedExactly | src/opaque-route-relay-v2.js:341-489 | which pages are accepted, record by record: counters that fit, digests of what each record holds and of the one before it, valid packets of the route, none twice |
| SyncLog.SameEndSameRecords | src/opaque-route-relay-v2.js:491-514 | two chains that end at the same sequence and digest hold the same records in the same order, up to the claimed proof time, and started from the same digest |
| SyncLog.SameEndSamePage | src/opaque-route-relay-v2.js:341-514 | the same for two accepted pages |
| SyncLog.ProofTimeIsFree | src/opaque-route-relay-v2.js:491-514 | a page with another claimed proof time is accepted just the same |
| SyncLog.ChainsGlue | src/opaque-route-relay-v2.js:341-464 | a chain goes on where the chain before it ended |
| SyncLog.LogsGlue | src/opaque-route-relay-v2.js:341-464 | consecutive logs glue into one contiguous log exactly when no packet is in both |
| Inbound.NoGapMeansContinues | src/client.js:116-136 | an accepted page shows no gap exactly when it continues where the durable cursor stands |
| Inbound.GapSaysWhy | src/pairwise-opaque-route-v2.js:306-340 | which gap an accepted page shows: records gone from the relay, a page that starts before the cursor, behind it, or at it with another digest |
| Inbound.RecordsAreConsecutive | src/client.js:141-197 | at every crash point of every run the records behind the durable state are numbered without a gap up to the durable cursor, and the relay never forgets beyond it |
| Inbound.ReceivedExactlyOnce | src/durable-pairwise-messaging-v2.js:1128-1225 | at every crash point of every run the durable effects are those of applying each of these records once, in order, to a new route, with anything else the runtime saved in between |
| InboundEffects.EffectsAreReadOff | src/durable-pairwise-messaging-v2.js:1156-1207 | at every crash point of every run the durable application is the fold of processing over the payloads of the bundles completed along the saved records, each once and in order, beginning anew where something else was saved; no saved record failed in a way that stops its page; the quarantine is the newest of all packets that failed for good or held no envelope |
| InboundEffects.PageAppliesExactly | src/durable-pairwise-messaging-v2.js:1156-1193 | a page that goes on at the cursor is applied exactly when no record of it fails in a way that stops it |
| Inbound.AppliedIsLogPrefix | src/durable-pairwise-messaging-v2.js:1128-1225 | the records applied are a prefix of the relay's log whenever the durable digest is the log's digest at the durable sequence |
| Inbound.DurableReassemblerRestores | src/pairwise-opaque-route-v2.js:345-368 | the durable reassembler can always be restored, to itself |
| Inbound.OpaqueRouteReceiver.SyncOpaqueRoute | src/client.js:94-139 | a gap is durable before it is reported, and then stays; each failure is said exactly |
| Inbound.OpaqueRouteReceiver.SyncReceive | src/durable-pairwise-messaging-v2.js:1128-1225 | a page is applied to a candidate, saved with its cursor, and only then committed at the relay, whose answer does not matter; a failing application callback leaves the page durable; it fails exactly when the page does not go on, a record stops it, the save is not valid or the storage refuses |
| Inbound.OpaqueRouteReceiver.ActElsewhere | src/durable-pairwise-messaging-v2.js:1619-1665 | another save between two pages changes what envelopes act on and the quarantine, and neither cursor nor reassembler |
| Inbound.MismatchRetirementIsLost | src/pairwise-opaque-route-v2.js:349-368 | a digest mismatch leaves the durable reassembler as it was, although the object retired the bundle |
| InboundLimits.PageIsSavedExactly | src/durable-pairwise-messaging-v2.js:3158-3179 | at every point of every run: a page that goes on at the cursor and whose records all apply is saved if and only if it quarantines no packet still in the quarantine by then, at its bound of 64 cut to the newest 48 |
| InboundLimits.TrimmedPageFitsExactly | src/durable-pairwise-messaging-v2.js:2789-2803 | the same of a save that first drops any number of the oldest quarantined packets for its byte budget: the rest passes if and only if the page quarantined no packet still in it |
| InboundLimits.RefusedPage | src/durable-pairwise-messaging-v2.js:1900-1906 | the run after which a page with a packet quarantined before is refused at whatever time it comes |
| InboundLimits.MismatchCanHappen | src/opaque-route-packet-v2.js:834-842 | a well sealed record that fills its bundle on a new route and fails with a digest mismatch |
| Pairing.TransitionsStayResumable | src/contact-pairing-v2.js:727-930 | every frame a valid state accepts leads to a valid state, so resuming never rejects it |
| Pairing.AcknowledgedStaysResumable | src/contact-pairing-v2.js:635-656 | acknowledging leads to a valid state with exactly the named frames gone, the others in their order, and nothing else changed |
| Pairing.OnlyTheNextFrame | src/contact-pairing-v2.js:608-633 | repeated, early and late frames change nothing |
| Pairing.AcceptsExactly | src/contact-pairing-v2.js:727-930 | over all states a side can hold and all frames: accepted exactly when it is the one awaited and in time, with the state and the queued answer of the protocol |
| Pairing.RefusedFor | src/contact-pairing-v2.js:608-930 | why any other frame is refused, in the order of the checks |
| Pairing.ResumesExactly | src/contact-pairing-v2.js:984-1034 | which persisted states resume: for each role and phase its counters, results and bindings, and an outbox of frames this side sealed; any other state takes no step |
| Pairing.FinalizesExactly | src/contact-pairing-v2.js:658-694 | a side finalizes exactly when it is ready with nothing left to publish, into the relationship of its rendezvous |
| PairingRuns.ReadySidesAgree | src/contact-pairing-v2.js:505-632 | in every run with crashes and redeliveries a ready side faces a side with the same relationship and confirmation and crosswise equal introductions |
| PairingRuns.PersistedSidesResume | src/contact-pairing-v2.js:984-1040 | whatever either side persisted can be resumed, at every crash point |
| PairingRuns.PairingCanAlwaysProgress | src/browser-pairing-service.js:244-324 | while nobody cancelled or expired and not both are ready, one delivery or publication is possible and decreases a measure, also after one side finalized |
| PairingRuns.PairingCanBeCompleted | src/browser-pairing-service.js:244-324 | from every point of such a run, deliveries and publications alone make both sides ready |
| PairingRuns.FinalizedSideLeavesEverything | src/browser-pairing-service.js:314-323 | after one side finalized, every frame its peer has not read is still in the peer's own lane |
| PairingRuns.LanesCloseExactly | src/browser-pairing-service.js:268-324 | over every run a lane is open exactly until its reader is done or someone cancels, and holds nothing from then on |
| PairingRuns.LateAcknowledgementBlocksFinalizing | src/contact-pairing-v2.js:658-674 | a ready side whose peer deleted its lane can ever finalize, by any continuation, if and only if its outbox is empty but for a frame whose append was just answered, and can publish nothing |
| PairingRuns.OpenLaneFinalizes | client/app.js:1073-1082 | a ready side whose peer's lane is open can publish every frame, record each answer, and finalize |
| PairingLimits.OffererLeftBehind | src/browser-pairing-service.js:268-324 | the run in which a crash before recording the answer to its last append leaves the offerer ready, and no continuation lets it finalize |
| RouteLifecycle.LifecycleIsOneChain | src/opaque-route-v2.js:494-619 | over every request history the renewal sequence counts the accepted renewals, transitions form one digest chain, and credentials, policy and creation never change |
| RouteLifecycle.RenewalExtends | src/opaque-route-v2.js:842-857 | an accepted renewal moves the expiry strictly on, to at most 30 days and five minutes past its acceptance |
| RouteLifecycle.RenewTakesEffectExactly | src/opaque-route-v2.js:554-591 | over every history, when a renewal is accepted, from the route's digest of its renewing secret and the proof written out: a repeat of the last transition or the next one in time; then only lease and last transition change |
| RouteLifecycle.TeardownTakesEffectExactly | src/opaque-route-v2.js:593-619 | the same of a teardown, under the digest of the other secret, also after the lease |
| RouteLifecycle.CreateTakesEffectExactly | src/opaque-route-v2.js:494-552 | when a creation is accepted, and the route it makes |
| RouteLifecycle.RenewableExactly | src/opaque-route-v2.js:554-591 | a renewal that is accepted exists exactly for the secret the route was created under, while the route stands within its lease; so every standing route can be renewed before its lease ends |
| RouteLifecycle.TearableExactly | src/opaque-route-v2.js:593-619 | a teardown that is accepted exists exactly for the secret the route was created under, while it stands |
| RouteLifecycle.OnlyHoldersChange | src/opaque-route-v2.js:827-840 | over every history nothing that arrives under any other secret changes a route |
| RouteLifecycle.RenewRefusedFor | src/opaque-route-v2.js:554-591 | why a renewal under a new key is refused, in the order of the checks |
| RouteLifecycle.TeardownRefusedFor | src/opaque-route-v2.js:593-619 | why a teardown under a new key is refused, in the order of the checks |
| RouteLifecycle.OtherRefusals | src/opaque-route-v2.js:554-619 | what is refused for its transport, its form, its route or the last key with other content |
| RouteLifecycle.CreateRefusedFor | src/opaque-route-v2.js:494-552 | why a creation is refused, in the order of the checks |
| RouteLifecycle.CreationExpiry | src/opaque-route-v2.js:494-552 | an accepted lease ends at most 30 days and its claimed renewal delay from acceptance; it keeps the bound of a renewal at every accepting time if and only if it ends within 30 days and five minutes of its issue |
| RouteLifecycle.CreationExpiryIsUnbounded | src/opaque-route-v2.js:168-194 | for any distance a creation request is accepted whose expiry lies exactly that far beyond 30 days, so the bound is met |
| RouteLifecycle.CompetingRenewalsExclude | src/opaque-route-v2.js:554-591 | of two renewals from one state at most one ever takes effect |
| RouteLifecycle.TeardownIsFinal | src/opaque-route-v2.js:593-619 | a torn down route never changes again, whatever arrives |
| RouteLifecycle.ImmediateRetryIsIdempotent | src/opaque-route-v2.js:564-570 | retrying an accepted renewal or teardown returns the identical route, at any later time |
| RouteLifecycle.CreateRetryIsIdempotent | src/opaque-route-v2.js:519-534 | the same for a creation, within the clock skew |
| RouteLifecycle.ProofsAreUsedOnce | src/opaque-route-v2.js:723-771 | over any run of uses no proof is accepted twice and the ledger stays within its bound |
| RouteLifecycle.UseAuthorizedExactly | src/opaque-route-v2.js:723-771 | a use is authorized exactly under the secret of its own authority, for its operation, in time on a standing route, with an unused proof and room in the ledger |
| RouteLifecycle.UseRefusedFor | src/opaque-route-v2.js:723-771 | why a use is refused, in the order of the checks |
| AnchorStore.WritesFormOneChain | client/browser-security-profile.js:106-253 | over all interleavings generations are gapless, each write replaced exactly the one before it, and anchor and state come from the same write |
| AnchorStore.WritesTakeEffectExactly | client/browser-security-profile.js:148-253 | at every point of every interleaving: a committer is let in exactly when it expects the last anchor and, unless it destroys, the next generation, and what it was let in with is written exactly when nothing was written since |
| AnchorStore.OneWinnerPerAnchor | client/browser-security-profile.js:148-206 | of all committers expecting one anchor at most one wins |
| AnchorStore.NothingAfterErasure | client/browser-security-profile.js:208-253 | after an erasure no commit expecting an unmarked anchor succeeds |
| AnchorStore.TombstoneItselfIsNoBarrier | client/browser-security-profile.js:179-181 | a committer that presents the tombstone as expected writes over it |
| AnchorStore.IndexedDBBrowserAnchorStore.Load | client/browser-security-profile.js:106-133 | answers with the anchor and record of the last write, readable only during the load |
| AnchorStore.IndexedDBBrowserAnchorStore.ErasureStatus | client/browser-security-profile.js:135-146 | erased exactly when the last write was an erasure |
| AnchorStore.IndexedDBBrowserAnchorStore.Commit | client/browser-security-profile.js:148-206 | succeeds only as the next generation on the expected anchor, with the one record staged, while others write at any point; while nobody else writes it is refused only for its stage, its staging, the expected anchor or the generation |
| AnchorStore.IndexedDBBrowserAnchorStore.Destroy | client/browser-security-profile.js:208-253 | replaces exactly the expected anchor by a tombstone and deletes the state in the same write; while nobody else writes it is refused only for its stage, its staging or the expected anchor |
| BrowserVault.HostAnchoredBrowserApplicationVault.LoadSlot | client/messaging-service.js:522-554 | a load that succeeds shows the vault of the last write, and it fails exactly for the state it finds |
| BrowserVault.HostAnchoredBrowserApplicationVault.CommitSlot | client/messaging-service.js:556-582 | a commit lands directly on what was loaded, or not at all, and then only because something was written in between, the vault it was loaded from was no longer current or no further generation is left |
| BrowserVault.HostAnchoredBrowserApplicationVault.Initialize | client/messaging-service.js:328-370 | a new vault replaces only none or a burned one; each failure is said exactly, and storage fails only over a write in between |
| BrowserVault.HostAnchoredBrowserApplicationVault.Save | client/messaging-service.js:401-430 | a save replaces the persona of the unlocked active vault and nothing else; each failure is said exactly, and storage fails only over a write in between |
| BrowserVault.HostAnchoredBrowserApplicationVault.BeginBurn | client/messaging-service.js:432-452 | burning follows active, and a burn in progress is left as it is; each failure is said exactly, and storage fails only over a write in between |
| BrowserVault.HostAnchoredBrowserApplicationVault.FinishBurn | client/messaging-service.js:483-513 | burned follows burning, keeps no persona and locks the object; each failure is said exactly, and storage fails only over a write in between |
| Burn.StatusMovesInOrder | client/messaging-service.js:328-513 | the vault's status moves only along empty or burned, active, burning, burned |
| Burn.BurnedWasBurning | client/messaging-service.js:432-513 | every burned vault was burning before, and active before that |
| Burn.BurnIsIrreversible | client/messaging-service.js:432-513 | a burn that began stays burning with the same persona until burned, under any tabs and crashes |
| Burn.BlockBeforeDestroy | client/messaging-service.js:643-682 | whenever a relationship is erased, every listed one is durably blocked or already erased |
| Burn.CleanupComesLast | client/messaging-service.js:671-682 | relay cleanup starts only after the vault was burned and everything listed erased |
| Burn.EveryRouteIsTornDown | client/messaging-service.js:671-682 | an executor that is done has asked for the teardown of the routes of every listed relationship, one after the other |
| Burn.BurnErasesItsPersona | client/messaging-service.js:643-682 | a burn by an executor whose own vault nobody burned yet, with a list covering that vault's persona, leaves every relationship of the burned vault erased for ever |
| Burn.BurnsItsOwnVaultExactly | client/messaging-service.js:483-513 | in every run a burn that commits burns the vault its executor began on if and only if that vault was not burned yet |
| Burn.UncoveredRelationshipSurvives | client/messaging-service.js:643-668 | for every list that misses a relationship there is a run that burns the vault and leaves that relationship |
| Burn.LateExecutorBurnsAnotherVault | client/messaging-service.js:483-513 | the run in which an executor left over from one burn burns a later vault |
| Burn.UndisturbedBurnCompletesIff | client/messaging-service.js:1498-1609 | an undisturbed run or re-run completes exactly when there is a vault to burn and every listed state is readable, unused or erased, and otherwise erases nothing |
| Burn.DamagedIsNeverPassed | client/messaging-service.js:1515-1530 | no executor listing a relationship damaged before it was blocked erases anything or burns the vault |
| Burn.ErasesExactly | client/messaging-service.js:1542-1609 | the erasing call erases exactly what can be read and, of what cannot, what has no anchor any more; anything else stops the executor |
| BurnRuntime.LocalBurn.AnchorRelationshipForBurn | client/messaging-service.js:1498-1540 | on success the relationship is durably blocked or erased: skipped when erased, else opened and blocked, while other tabs act |
| BurnRuntime.LocalBurn.DestroyRollbackAnchor | client/messaging-service.js:1542-1609 | on success the relationship is erased, which an anchor still in place refuses of an unreadable one |
| BurnRuntime.LocalBurn.Execute | client/messaging-service.js:643-682 | success means everything listed is erased and the vault it began on is burned; when nothing outside refuses or interferes it succeeds exactly when there is a vault to burn and nothing listed is damaged |
| CallMedia.DecodeUndoesEncode | src/call-v1.js:671-766 | every field of every valid frame comes back, whatever the padding |
| CallMedia.EncodeUndoesDecode | src/call-v1.js:671-766 | an accepted cleartext is the encoding of what was read |
| CallMedia.CleartextLayout | src/call-v1.js:719-766 | a cleartext is accepted exactly with version, track, timestamp, flags, length and payload at their offsets and in their bounds |
| CallMedia.WindowAnswersAsFullSet | src/call-v1.js:908-929 | the bounded window answers as the full set of accepted sequences, restricted to the last 256 |
| CallMedia.WindowIsBounded | src/call-v1.js:908-929 | the window never holds more than 256 sequences |
| CallMedia.InsertMirrors | src/call-v1.js:921-929 | an insertion keeps the window equal to the full set cut to its last 256 |
| CallMedia.DeliveredAtMostOnce | src/call-v1.js:798-832 | over any stream no epoch and sequence is delivered twice, also after old windows were dropped |
| CallMedia.ReplayExactly | src/call-v1.js:806-832 | a frame in reach is refused as a replay exactly when it was delivered before or is too old |
| CallMedia.DeliveredExactly | src/call-v1.js:798-832 | over any stream: refused for its epoch exactly when more than one away from the highest delivered, as a replay exactly when old, else delivered exactly when authentic, all read off the frames delivered before |
| CallMedia.CallMediaReceiver.Open | src/call-v1.js:806-832 | the receiver object answers and keeps its windows as specified |
| CallMedia.CallMediaSender.Seal | src/call-v1.js:776-789 | a sealed frame decodes to its input, has the size of its bucket and uses one sequence; it is refused exactly when sequences are used up, the frame is invalid or does not fit, and then uses none |
| CallMedia.NoncesNeverRepeat | src/call-v1.js:768-796 | over any calls of sealing and rotating, no two frames are sealed under one epoch and sequence |
| CallSignals.AppliedOnceInOrder | src/call-v1.js:852-891 | of each role's signals every sequence is applied at most once and in increasing order |
| CallSignals.ConnectedMeansAnswered | src/call-v1.js:852-891 | a call connects only over an applied answer that matches its offer |
| CallSignals.PhaseOnlyAdvances | src/call-v1.js:852-891 | the phase only advances |
| CallSignals.PhaseIsReadOffLog | src/call-v1.js:852-891 | after any run the phase is read off the applied signals: ended, for that signal's reason, exactly when one that ends the call was applied, else active exactly when a connection was, connecting exactly when only an answer was |
| CallSignals.AnsweredExactly | src/call-v1.js:852-891 | after any run, which signals are invalid, stale or applied: each kind exactly in the phases that admit it |
| CallSignals.ValidExactly | src/call-v1.js:291-340 | who may send a signal of a kind, with what sequence, lifetime and reason |
| CallSignals.ForkExactly | src/call-v1.js:852-868 | after any run, a signal under the role and sequence of an applied one is a fork or an exact repeat if and only if that one is its role's last, and stale otherwise |
| CallSignals.OlderConflictIsStale | src/call-v1.js:852-868 | the run after which a conflict with an applied signal is answered as stale |
| CallSignals.CallStateMachine.ApplySignal | src/call-v1.js:852-891 | the object changes as specified, and not at all on an error |
| SecurityKeyCbor.ParseUndoesPrint | client/security-keys.js:25-60 | parsing a printed value followed by anything gives the value and its exact length |
| SecurityKeyCbor.PrintUndoesParse | client/security-keys.js:25-60 | printing an accepted item gives back exactly the octets read |
| SecurityKeyCbor.EncodingIsUnique | client/security-keys.js:25-60 | two accepted inputs with the same octets in every text are the same input |
| SecurityKeyCbor.SameStringSameOctets | client/security-keys.js:48 | two texts read as one string exactly when they are equal up to one leading byte order mark |
| SecurityKeyCbor.KeysClashExactly | client/security-keys.js:46-58 | integers and texts may be keys, and two of them clash exactly when they are one number or one string, so an unsigned and a negative one never do |
| SecurityKeyCbor.ItemAcceptedExactly | client/security-keys.js:25-60 | which values are accepted, kind by kind: depth, 32-bit numbers and lengths, well-formed texts, at most 64 members each accepted itself, keys that may be keys and no two that clash |
| SecurityKeyCbor.ReadInTurn | client/security-keys.js:25-60 | an accepted item is its head and then its octets as they are, its members one after the other, or each key before its value, each read where the one before it ended |
| SecurityKeyCbor.FirstOctetDecides | client/security-keys.js:30-48 | the kind of an accepted item, and its number, length or truth, are those of its first octets |
| SecurityKeyCbor.CoseKeyIsAccepted | client/security-keys.js:100-102 | the key of every P-256 registration is accepted, whatever follows it, with its five entries |
| SecurityKeyCbor.OnlyEncodingExactly | client/security-keys.js:25-60 | of the values as handed out, with strings for texts: an encoding is the only one of its value if and only if none of its texts can gain or lose a leading byte order mark |
| SecurityKeyCbor.TwoEncodingsOfNothing | client/security-keys.js:48 | two different inputs accepted as the empty string |
| SecurityKeyCbor.ParseSecurityKeyCbor | client/security-keys.js:25-60 | the offset-moving parser accepts exactly the printed representable values, with their end |
| DerSignature.HalfIffInteger | client/security-keys.js:110-128 | reading an integer and writing a half undo each other |
| DerSignature.EncodedReads | client/security-keys.js:110-128 | the encoding of two halves reads back as those halves |
| DerSignature.ReadWasEncoded | client/security-keys.js:110-128 | whatever is read was the encoding of what was read |
| DerSignature.RawSignature | client/security-keys.js:110-128 | the parser accepts exactly the shortest encodings |

## Left out

- Cryptography itself (hybrid key agreement, signatures, sealing, hashing, key derivation, random generation): free terms, function parameters and inputs, as said above.
- Base64, JSON, UUID and timestamp syntax, and field-by-field shape checks: one-branch facts about library behaviour.
- Aliasing of the nested maps and sets inside a pending bundle, an intent or a persona: they are values here, so an update through a second reference is not captured.
- The order in which a JavaScript Map or Set enumerates: only the explicit order lists are modelled.
- A route revision, sequence or generation above the largest safe integer: the checks that refuse it are kept, the loss of precision beyond it is not modelled.
- OutboxHistory.OutboxStaysOrdered: of the runs without a save that moved the kept index off its intent, as does OutboxHistory.BootstrapPrecedes; OutboxLimits.ByteBudgetShiftsIndex shows that both fail after one.
- The encoded size of a state: an arbitrary function of it; the examples take one that counts status names and history entries.
- Attachment uploads and downloads, delivery and read receipts, and the delivery state of an intent: they travel beside the outbox and change no ordering.
- Sealing an envelope and choosing destination routes inside the preparation of an intent: their results are inputs of the request; route updates, probes and prekey updates are requests with the control mark.
- Updating local policy and lifecycle records of a relationship state: they save through the same candidate check and change no intent or session.
- Inbound.ReceivedExactlyOnce: what a decoded envelope does to sessions, events and controls is an arbitrary function that applies, refuses or fails; a failure stops the page. What else the runtime saves between pages is an arbitrary change of the same data. Of the guard of a save, the bound and the distinct packets of the quarantine are modelled here. The cursor check of a saved route is src/pairwise-opaque-route-v2.js:370-389.
- InboundLimits.PageIsSavedExactly: of saves within the byte budget. What a save over it drops is not part of a receiving step; InboundLimits.TrimmedPageFitsExactly says for any number of dropped packets whether the rest passes.
- Inbound.AppliedIsLogPrefix: needs record digests free of collisions among the records compared.
- DeliveryRoom.DeliversWithinCapacity: packet identifiers are assumed distinct across sealed bundles, as random 32-octet identifiers are, and a packet repeated after its bundle's tombstone is gone is outside its horizon; such a packet starts the bundle anew.
- PairingRuns.ReadySidesAgree: one offerer faces one responder, and the lanes may reorder, repeat and withhold frames but not forge them, which ideal encryption excludes. Expiry is an input of each step. Cancelling deletes both lanes in one step.
- PairingRuns.OpenLaneFinalizes: the frames of one outbox are assumed to have distinct identifiers, as random ones have.
- A relay's refusal to append to a deleted lane: an assumption of the lane model; the relay is not part of this model.
- Entries of the call windows opened by overlapping, unserialised calls: one call at a time is modelled.
- Whether an answer matches an offer, and key derivation for calls: parameters.
- Well-formedness of UTF-8 inside a text: a parameter of the parser.
- Burn.UndisturbedBurnCompletesIff: a tombstone is never lost, as only the host could remove it, and the passphrase is known to whoever re-runs a burn.
- Security-key entries, presence monitoring and unlock visibility inside the vault record: they change while the vault stays active and keep its status.
- Local route maintenance and the teardown journal of a blocked relationship, rendezvous, lobby, attachment, group and web-data protocols, and user interface, timers and network clients: separate machines or plumbing.
