# The Capri hub session protocol, verified

A Dafny model of the version 2 protocol between a host and the hub, and of the hub's state
machines on top of it. Objects the program updates in place are classes here, and every method
is proved equal to a function of the old state. Properties of whole runs are proved about those
functions, as step systems whose steps are the program's lock sections and channel operations,
interleaved in any order.

| file | what it covers |
|---|---|
| `Wire.dfy`, `Validation.dfy` | payloads and log entries; the structural checks of a frame |
| `Sender.dfy`, `Receiver.dfy`, `Delivery.dfy` | the reliable sender and receiver, and both over a faulty channel |
| `Reordering.dfy` | the receiver under any order of arrival |
| `Replay.dfy` | what one retransmission sends again |
| `Events.dfy`, `Ingest.dfy` | how a session feeds one batch of events through a shared receiver, and what of it the hub stores |
| `SessionProto.dfy`, `SessionRuns.dfy`, `RequestRuns.dfy`, `Deadlines.dfy` | the protocol state of an epoch, audience coalescing, request deadlines, the ack filter |
| `AudiencePeer.dfy` | which snapshot a peer ends on when its frame is rewritten |
| `RelayAssembly.dfy`, `RelayFailures.dfy` | chunk assembly of one answer, and when it fails |
| `RelayPlane.dfy`, `RelayRuns.dfy`, `RelayRecords.dfy` | the pending table, tombstones and the ack table; one answer among all requests; what caller and host are told |
| `Units.dfy`, `UnitStream.dfy`, `UnitWriter.dfy` | the unit codec, split and reassembly; the stream a peer reads; the writer and the control frames between fragments |
| `EpochIsolation.dfy`, `EpochFlow.dfy` | events on their way to the browsers while the epoch changes, and while it does not |
| `EventRing.dfy`, `FeSubscriber.dfy`, `FeRuns.dfy` | the gap-pull buffer; one browser's queue and its pump |
| `Viewing.dfy`, `AudienceGen.dfy` | who looks at what, and how a snapshot gets its generation |
| `Prefs.dfy`, `PrefsDoc.dfy` | last-write-wins preferences and their projection |
| `PairLimiter.dfy` | the sliding-window limiter of pairing attempts |
| `Sums.dfy`, `Text.dfy` | totals of finite maps; the order of strings |

`dafny verify dfyconfig.toml` checks everything.

## What turned out not to hold

Each of these is a lemma below, with the exact condition where there is one.

- A session's viewing set does not follow exactly one level of subagents. The loop adds children
  to the set it looks parents up in, so a grandchild is in or out depending on map order
  (`Viewing.OrderIndependentExactlyWhen`).
- Equal audience generations mean equal contents only for session ids without NUL
  (`AudienceGen.KeyTellsApartExactlyWhen`, `AudienceGen.NulHidesChange`).
- A migrated preference entry does not always lose a tie: it wins against a site that sorts below
  `hub-legacy` (`Prefs.LegacyLosesTieExactlyWhen`).
- The entry comparison is exact only without zero records (`Prefs.SameIsExact`,
  `Prefs.SameMissesZero`); sanitizing is what excludes them.
- A re-sent chunk that is already parked can fail its request, because the budget is checked before
  the duplicate (`RelayAssembly.ResentParkedChunk`, `RelayAssembly.ResentChunkFails`), and a plain
  body is not held to the cap (`RelayAssembly.AnswerOverCapExactlyWhen`,
  `RelayAssembly.PlainAnswerBreaksCap`, `RelayAssembly.PlainChunkBreaksCapExactlyWhen`).
- An epoch reset is dropped by a full fan-out queue (`EpochIsolation.ResetAcceptedExactlyWhen`,
  `EpochIsolation.ResetCanBeLost`).
- A peer that is a plain receiver does not always end on the newest audience. A snapshot noted as
  written was handed to a transport, not applied. When it is folded into a frame of which a writer
  has already read an older payload, that payload may be the one the peer takes, and the frame's
  ack then queues no resend (`AudiencePeer.NewerIsToldExactlyWhen`, `AudiencePeer.StalePeerRun`).
- Acked is not ingested: across a takeover within an epoch an event can be acked and then refused
  (`Ingest.RefusedExactlyWhen`, `Ingest.TakeoverLosesEvent`).
- A control frame longer than one unit must not meet a run of fragments: slipped inside, it is an
  error at the peer (`UnitWriter.Writer.WriteEntries`, `UnitWriter.LongControlBreaks`). The writer
  takes control frames to be small (`internal/hub/writer.go:316`) and checks no length. They are
  heartbeats and probes carrying the ack table of at most `maxPendingRelayPerHost` pending and
  `maxRelayTombstonesPerHost` ended requests (`internal/hub/session.go:1126-1184`). With the short
  decimal ids the hub gives its own requests such a table fits one unit; nothing enforces it, and a
  record of an ended request keeps the id it came with, whatever its length. With short control
  frames the error cannot occur (`UnitWriter.ShortControlsNeverBreak`).
- Mirroring raw instead of clamped acks would stall (`RequestRuns.RawMirrorWouldStall`).

Where code and documentation differ, the model follows the code:

- `AppendAt` is documented to take its baseline on an empty log; the code asks whether a number was
  ever assigned.
- `wire/PROTOCOL-V2.md` section 4.2 closes the session when more than the window is parked; the
  receiver already refuses the frame that would exceed it.
- `mergePrefsEntries` is documented to leave both inputs untouched; it fills its first one. Its only
  caller passes a map of its own.

## Model

| member | source | states |
|---|---|---|
| `Delivery.EveryRunIsSafe` | wire/receiver.go:50-83 | over every run of a lossy, duplicating, reordering channel with lost acks and same-epoch reconnects: released payloads are gap-free from the baseline, each number once and in order, each logged under that number and the appended one unless elided; sender.acked ≤ receiver.acked ≤ sender.next |
| `Delivery.AppliedIsPrefixOfAppended` | wire/sender.go:33-62 | from a fresh pair and without elision, what the receiver released is exactly a prefix of what was appended |
| `Delivery.StepKeepsSafe` | wire/sender.go:57-112 | each single step (append, elide, transmit, deliver, heartbeat, ack, reconnect) keeps the whole safety invariant |
| `Delivery.SafeSystemsAgree` | wire/receiver.go:18-83 | every safe system meets the precondition of the progress theorem: the two ends agree |
| `Delivery.RoundShrinks` | internal/hub/writer.go:273-279 | one fault-free replay round (batch delivered, ack returned) makes a non-empty log strictly shorter and keeps the ends in agreement |
| `Delivery.RoundsDrain` | internal/hub/writer.go:273-279 | no loss: from any agreeing state rounds end with an empty log of zero bytes, both watermarks at the last assigned number and nothing parked |
| `Replay.Batch` | internal/hub/session.go:400-419 | the replay batch is the longest prefix of the log within both limits, non-empty whenever the log is, a single oversized entry allowed |
| `Delivery.OfferRun` | wire/receiver.go:50-83 | consecutive frames starting at or below the gap never overflow and take the watermark at least to their end |
| `Delivery.AppendAtStartsTheRun` | wire/sender.go:43-55 | AppendAt on a fresh sender starts a run above the watermark: consistent with the baseline it names, and with baseline 0 only for number 1 |
| `Sending.Sender.Append` | wire/sender.go:33-62 | the next number is assigned, the log stays the exact run (max(acked, base), next] and bytes its exact size |
| `Sending.Sender.AppendAt` | wire/sender.go:43-62 | number 0 and gaps are refused without a change; otherwise an append onto the baseline it names |
| `Sending.Sender.Ack` | wire/sender.go:66-89 | the watermark moves to min(n, next), never back, and exactly the entries above it stay, with exact bytes |
| `Sending.Sender.ElideFrom` | wire/sender.go:100-112 | exactly the first entry of that number from the index on gets the new payload; its number and every other entry stay, bytes stay exact |
| `Sending.Sender.EntryFor` | wire/sender.go:124-131 | an entry is found exactly when its number is in (max(acked, base), next] |
| `Sending.AppendKeeps` | wire/sender.go:33-62 | appending keeps the log the exact contiguous run and bytes its sum |
| `Sending.AckKeeps` | wire/sender.go:66-89 | an ack keeps the log exact and moves the watermark to max(acked, min(n, next)) |
| `Sending.AckKeepsExactlyAbove` | wire/sender.go:66-89 | an entry survives an ack if and only if it was logged and its number is above the ack |
| `Sending.AcksCommute` | wire/sender.go:66-89 | cumulative acks commute and repeat harmlessly: two acks are the larger one |
| `Sending.ElideKeeps` | wire/sender.go:91-112 | an elision opens no hole, touches no other entry and keeps bytes exact |
| `Receiving.Receiver.Accept` | wire/receiver.go:50-83 | duplicate, park, overflow and release-with-drain, each with its exact new watermark, parked map, payloads and error |
| `Receiving.OfferKeeps` | wire/receiver.go:50-83 | frames are parked strictly above the gap within the window, the watermark moves by exactly the payloads released, an error changes nothing |
| `Receiving.RunBehindIsLongest` | wire/receiver.go:74-82 | the drain releases the longest parked run behind the gap, in order |
| `Reordering.AnyOrderReleasesAll` | wire/receiver.go:50-83 | frames numbered on from the watermark, in any order, with any repetition and late copies of released ones, are all released in number order if all but the first fit the window; none is refused and nothing stays parked |
| `Reordering.OneMoreHeard` | wire/receiver.go:50-83 | a frame is refused exactly when its number is 0, or when it is new, beyond the gap and as many frames as the window allows wait there; otherwise the state is the one the numbers heard determine: the end of the gap-free run, with the rest parked |
| `Reordering.OrderDoesNotShow` | wire/receiver.go:50-83 | two orders of the same numbers leave the same receiver and release the same payloads |
| `Events.EarlyReturnDiscardsNothing` | internal/hub/session.go:1001-1019 | for a contiguous batch, with any other session advancing the shared receiver between its events, an overflow comes only if nothing was released before it |
| `Events.NoErrorOnceCaughtUp` | wire/receiver.go:50-83 | once the watermark has reached a contiguous batch no event of it overflows |
| `Events.ReleasedIsTheStream` | internal/hub/session.go:1001-1019 | overlapping, re-sent and reordered batches release exactly the events between the two watermarks, each once and in order |
| `Events.HandleEvents` | internal/hub/session.go:1001-1019 | the batch loop on the receiver object gives that outcome, and an error comes with nothing released |
| `Events.BatchOffersAll` | internal/hub/session.go:1001-1019 | a batch that ends without an error has offered every one of its events in order and released what they released |
| `Events.BatchCatchesUp` | internal/hub/session.go:1001-1019 | a batch that reaches down to the gap is applied to its end, whatever another session does between its events |
| `Ingest.AckedIsAccountedFor` | internal/hub/session.go:1001-1040 | over every run of sessions on one receiver: each number up to the watermark was released once, and what a session released is, in order, a stored part and then either what is in its hands or what was refused and ended it |
| `Ingest.AttachedLosesNothing` | internal/hub/hub.go:1915-1925 | while a session is attached everything its batches released is stored in order or in its hands, whatever older sessions do |
| `Ingest.AttachedStoresAll` | internal/hub/hub.go:1915-1925 | an attached session at the end of a batch, left alone, stores every event the batch released, once and in order |
| `Ingest.BatchIsTheLoop` | internal/hub/session.go:1001-1019 | an undisturbed batch of a session releases and holds what the batch loop releases, and leaves the receiver where the loop does |
| `Ingest.RefusedExactlyWhen` | internal/hub/hub.go:1915-1925 | a step refuses events if and only if a session that is not attached asks to store a batch that released some, and then exactly those |
| `Ingest.TakeoverLosesEvent` | internal/hub/session.go:1020-1032 | an event can be acked and refused: released by a session just before another attaches |
| `SessionRuns.CoalescingLosesNothing` | internal/hub/session.go:206-242 | over every run the newest snapshot is in the one live entry, queued for resend, in the hands of the session loop, handed over in full before a covering ack, or discarded; the generation held never falls; at most one audience entry is unacked |
| `SessionRuns.StepKeepsAudience` | internal/hub/session.go:613-664 | every step keeps the audience invariant and the generation held never falls |
| `SessionRuns.PushOutcome` | internal/hub/session.go:613-664 | in every reachable state a valid push ends in the one live entry (unchanged, rewritten or appended) or is older and changes nothing; the branch for a vanished entry is never taken |
| `SessionRuns.PushReports` | internal/hub/session.go:613-664 | in every such state the number returned is that of the entry that holds the snapshot, replaced means exactly that an entry got another payload within the cap, and the overflow error exactly that the log changed and is over the cap |
| `SessionRuns.InvalidPushIsRefused` | internal/hub/session.go:613-664 | a snapshot that is not valid changes nothing of what is sent, and a newer one is told why |
| `SessionRuns.DispatchReports` | internal/hub/session.go:268-294 | a complete request is the one entry added, under the number returned, an incomplete one is refused without a change, and the overflow error means exactly that the log is over the cap |
| `AudiencePeer.NewerIsToldExactlyWhen` | internal/hub/session.go:613-664 | in every reachable state of the hub, its writers, the wire and a peer that is a plain receiver: a newer snapshot can be pushed, some continuation leaves the hub with nothing to send, and every such continuation without a further push leaves the peer on that snapshot if and only if no writer had read an older payload of the frame it goes into; so a push that opens a frame of its own always arrives |
| `AudiencePeer.DirtyRewriteMayNotBeTold` | internal/hub/session.go:206-228 | otherwise there is such a continuation that leaves the peer on an older generation |
| `AudiencePeer.StalePeerRun` | internal/hub/session.go:301-322 | from a fresh start, for any two valid snapshots in order, a legal run ends with the peer on the first, every frame acked and no resend queued |
| `AudiencePeer.CoveringAckResendsExactlyWhen` | internal/hub/session.go:206-228 | the ack that covers the audience frame queues a resend of the newest snapshot if and only if its newest payload was not yet written in full |
| `SessionRuns.NoResendOnceRewritten` | internal/hub/session.go:206-228 | once the rewritten payload is written, the ack covering its number queues no resend |
| `SessionRuns.RewrittenPayloadIsADuplicate` | wire/receiver.go:50-62 | and a plain receiver that took the older payload drops the newer one as a duplicate |
| `RequestRuns.ReportsAreSound` | internal/hub/session.go:268-322 | over every run: a waiting request is an entry of the unacked log, one never fully written never expires, a request is reported at most once, at least a window after a completed write with no covering ack |
| `RequestRuns.ReplayNeverExtends` | internal/hub/session.go:301-322 | over any run that ends before the deadline, however often and by whichever writers the frame is written again, a request keeps the deadline it had until an ack covers it |
| `Deadlines.ExpiresExactlyAfterWindow` | internal/hub/session.go:268-395 | from any reachable state: a dispatched request never expires before its frame was written in full, and from the first full write on, unless an ack covers it or the frame is written again after the deadline, it counts as expired exactly from one window later on (the default if the window given is not positive), is never reported earlier, and is reported when the expired requests are taken out |
| `Deadlines.LateRewriteStartsAnew` | internal/hub/session.go:301-322 | a request written again once its deadline has come and before it was taken out gets a new window from that write on |
| `Deadlines.ReachableIsSound` | internal/hub/session.go:268-395 | every reachable state meets what that theorem starts from |
| `RequestRuns.FilterIsTransparent` | internal/hub/session.go:960-974 | with any number of sessions over the same state, each with a mirror of its own, skipping acks at or below the mirror leaves the very state that applying every raw ack gives, mixed with anything else |
| `RequestRuns.OldAckIsIdentity` | internal/hub/session.go:206-228 | an ack at or below the applied watermark changes nothing at all |
| `RequestRuns.RawMirrorWouldStall` | internal/hub/session.go:960-974 | mirroring the raw instead of the clamped ack would make a later genuine ack look old |
| `SessionProtocol.SessionProto.AckDown` | internal/hub/session.go:206-228 | log, request table and audience slot after an ack, exactly; the result is the clamped watermark |
| `SessionProtocol.SessionProto.TakeAudienceResend` | internal/hub/session.go:233-242 | the queued resend is handed over once and cleared |
| `SessionProtocol.SessionProto.PushAudience` | internal/hub/session.go:613-664 | the whole state, number, replaced flag and error of a push, including the in-flight cap and validation errors |
| `SessionProtocol.SessionProto.DispatchRequest` | internal/hub/session.go:268-294 | a request frame is appended and recorded in the same step, or refused without a change |
| `SessionProtocol.SessionProto.NoteWritten` | internal/hub/session.go:301-322 | a completed write records the generation it carried and arms a deadline unless one is running |
| `SessionProtocol.SessionProto.ExpireRequests` | internal/hub/session.go:383-395 | exactly the requests whose deadline has passed leave the table, each reported once |
| `SessionProtocol.SessionProto.NextRequestDeadline` | internal/hub/session.go:366-380 | the earliest running deadline, none exactly when none runs |
| `SessionProtocol.SessionProto.EntriesAfter` | internal/hub/session.go:325-336 | exactly the unacked entries above a number, in order |
| `SessionProtocol.SessionProto.OldestUnacked` | internal/hub/session.go:400-419 | the loop returns exactly the longest batch within both limits |
| `Validation.ValidateAudienceIsExact` | wire/frame.go:186-204 | the neighbour-by-neighbour check accepts exactly the snapshots with a generation, non-negative watchers, no sessions when widened, and non-empty strictly sorted sessions |
| `Validation.ValidateRelayAcksIsExact` | wire/frame.go:354-364 | accepts exactly the tables whose entries name a request and are not both done and aborted |
| `RelayAssembly.AnyOrderGivesTheAnswer` | internal/hub/hub.go:2303-2417 | any order of an answer's chunks, base64 or plain or mixed, with any repetition inside the budgets answers exactly when all have arrived, with chunk 1's status and all chunks concatenated |
| `RelayFailures.FailsAtFirstFlaw` | internal/hub/hub.go:2303-2417 | with a chunk that cannot be applied (unknown encoding, undecodable, over the cap, or the end of an invalid body) the caller never gets an answer: in any order the request fails exactly when the first such chunk and all before it have come, and for its reason |
| `RelayFailures.FlawlessOrSpoilt` | internal/hub/hub.go:2355-2417 | every numbered answer is one or the other: it can be given whole exactly when no chunk has such a flaw, and otherwise one is the first |
| `RelayAssembly.TooMuchParkedExactlyWhen` | internal/hub/hub.go:2317-2332 | a chunk ahead of its turn fails its request exactly when one more does not fit the host-wide limits, in number or in bytes |
| `RelayAssembly.AcceptKeepsParked` | internal/hub/hub.go:2303-2350 | while a request waits every parked chunk lies beyond the gap and parkedBytes is the exact weight of the parked map |
| `RelayRuns.AnswerReachesCaller` | internal/hub/hub.go:2303-2417 | the same with everything else a host does interleaved: while nothing else ends the request and its chunks find room beside all that is parked, it waits until its last chunk has come and then its caller has the whole answer and no other outcome |
| `RelayRuns.ParkedStaysInBudget` | internal/hub/hub.go:2287-2332 | over every run the chunks parked by all pending requests of a host together, and their bytes, stay within the two limits |
| `RelayAssembly.ResentParkedChunk` | internal/hub/hub.go:2317-2332 | a re-sent parked chunk is harmless if and only if there is room for it once more, because the budget check comes first |
| `RelayAssembly.ResentChunkFails` | internal/hub/hub.go:2317-2332 | and runs reach it: a fresh request that parks early chunks up to the limit fails when any of them is sent again |
| `RelayAssembly.AnswerOverCapExactlyWhen` | internal/hub/hub.go:2355-2417 | in any order of arrival, parked or not, the answer is over the body cap if and only if its chunks together are, and then its last chunk is plain |
| `RelayAssembly.PlainAnswerBreaksCap` | internal/hub/hub.go:2385-2417 | such runs exist: two plain chunks in either order, the first within the cap and both together over it, are answered whole |
| `RelayAssembly.PlainChunkBreaksCapExactlyWhen` | internal/hub/hub.go:2385-2417 | step by step, arriving or drained: the next chunk, with a plain body, takes the answer over the cap if and only if it continues or ends an answer, the two lengths are over the cap and, at the end, the body is valid; or it is a lone frame longer than the cap |
| `RelayAssembly.Base64AnswersStayCapped` | internal/hub/hub.go:2355-2384 | whatever base64 chunks arrive, in any order, parked or not, the answer they make never exceeds the cap |
| `RelayPlane.RequestsEndOnce` | internal/hub/hub.go:2160-2434 | over every run (chunks, failures, expiry, cancel, detach, epoch change, pruning) a request's caller sees at most one value or one close, never both, and nothing while it is pending |
| `RelayRecords.RequestsAreAnswered` | internal/hub/hub.go:2160-2434 | and at least one: over every run a request is still pending, was cancelled by its caller, or its caller has had exactly one outcome |
| `RelayRecords.EndIsHeard` | internal/hub/hub.go:2160-2434 | each end but a cancel reaches the caller: the whole answer, the given failure or a 502 in one value, or the closed channel |
| `RelayRecords.HostIsTold` | internal/hub/hub.go:2197-2283 | over every run, whatever else the host does: while an answer is incomplete every ack table lists its request with the consecutive chunks heard; the step that completes it records it as done with all its chunks, unless that record is itself one to evict, and every later table lists it so while the record is held |
| `RelayRecords.EndedIsListed` | internal/hub/hub.go:2160-2283 | a request ended by failure, expiry, cancel or detach is recorded and listed as aborted, one that was completed as done with the number of its chunks, for as long as the record is held |
| `RelayRecords.RecordGoesOnlyWhen` | internal/hub/hub.go:2204-2257 | a record is lost only as an oldest one over the bound, to its age, or to a new epoch |
| `RelayPlane.StepKeepsOk` | internal/hub/hub.go:2160-2434 | every step keeps the pending and tombstone invariants, keeps tombstones in their bound and never turns a retained done record into an abort |
| `RelayPlane.TombstonedOk` | internal/hub/hub.go:2233-2283 | recording an end keeps the bound by evicting an oldest record, and keeps records well formed |
| `RelayPlane.OtherRequestsUntouched` | internal/hub/hub.go:2303-2350 | a chunk of one request changes no other pending request |
| `RelayPlane.AckTableIsValid` | internal/hub/hub.go:2204-2231 | an acknowledgement table lists each request once and passes the receiver's validation |
| `RelayPlane.RelayHost.Register` | internal/hub/hub.go:2109-2120 | a request is taken in exactly while fewer than the cap are pending |
| `RelayPlane.RelayHost.AcceptRespond` | internal/hub/hub.go:2303-2350 | one frame is one table step; known and notify say exactly whether the request was pending and whether its ack moved or it ended |
| `RelayPlane.RelayHost.Assemble` | internal/hub/hub.go:2303-2417 | the chunk loop computes the assembly outcome against the host-wide parked totals |
| `RelayPlane.RelayHost.HostParked` | internal/hub/hub.go:2287-2301 | the totals over all pending requests are exact |
| `RelayPlane.RelayHost.AddTombstone` | internal/hub/hub.go:2233-2257 | over the bound the record evicted is an oldest one |
| `RelayPlane.RelayHost.FailRequest` | internal/hub/hub.go:1495-1509 | a pending request gets its failure and an abort record; an unknown one changes nothing |
| `RelayPlane.RelayHost.DropPending` | internal/hub/hub.go:2160-2171 | a cancelled request leaves with an abort record and no value |
| `RelayPlane.RelayHost.FailPending` | internal/hub/hub.go:1480-1493 | every pending request is closed exactly once and leaves an abort record; records evicted on the way are no younger than any that stay |
| `RelayPlane.RelayHost.RelayAcks` | internal/hub/hub.go:2197-2231 | stale records are dropped and the sorted table of the rest is returned, valid |
| `Units.DecodeEncode` | wire/unit.go:38-82 | decoding an encoded unit gives it back if and only if the unit is well formed |
| `Units.EncodeDecode` | wire/unit.go:38-82 | accepted bytes are the encoding of what they decode to |
| `Units.HeaderLayout` | wire/unit.go:38-82 | the bytes of a unit: flags, then number, total and offset as big-endian 32-bit words, then the data |
| `Units.FlagBits` | wire/unit.go:16-30 | the lowest flag bit says compressed and the next one fragment |
| `Units.SplitThenReassemble` | wire/unit.go:84-189 | for every payload with a 32-bit length and every unit size, feeding the units completes on the last one only, with the same bytes and flag, and leaves the reassembler closed |
| `Units.SplitFrame` | wire/unit.go:84-114 | the offset loop produces exactly the specified units; payloads over 2^32-1 bytes are refused |
| `Units.CompletePassesThrough` | wire/unit.go:132-149 | a complete unit is delivered and leaves an open frame alone, unless it reuses that frame's number |
| `Units.FragmentAdvances` | wire/unit.go:151-180 | one in-order fragment moves the assembly on and completes exactly at the announced length |
| `Units.FragmentsAreSmall` | wire/unit.go:84-114 | no unit carries more than the unit size |
| `Units.SplitIsShortest` | wire/unit.go:84-114 | a frame is split into units of the given size, all but the last of them full; a size that is not positive means UnitSize |
| `Units.AssemblyIsBounded` | wire/unit.go:132-180 | over any stream of bytes, valid or not, what is held and what is handed out stay within the limit; what is held stays below the announced total unless a unit overran it |
| `Units.RefusedExactlyWhen` | wire/unit.go:132-180 | bytes are refused exactly when they encode no well-formed unit the reassembler has a place for, and then nothing changes unless the next part was only too long |
| `Units.HandedOutWasSent` | wire/unit.go:132-180 | whatever bytes arrive, a frame handed out is one whole unit that arrived, or all the parts of one frame, each of which arrived, without hole or overlap to the announced length |
| `Units.LaterTotalsAreIgnored` | wire/unit.go:161-169 | fragments that differ only in their total are treated alike while a frame is open |
| `Units.Reassembler.Accept` | wire/unit.go:132-180 | the method refines the specification in every branch, errors included |
| `UnitWriter.Writer.WriteEntries` | internal/hub/writer.go:235-251 | from the control queue and the entries alone: the peer meets an error if and only if a control frame of several units gets its turn between two units of one entry; otherwise the peer has completed exactly what was written out, and the queue left is told exactly |
| `UnitWriter.WrittenInOrder` | internal/hub/writer.go:235-324 | what is written out holds every reliable frame once, whole and in the order given, and the control frames in the order they were queued, those not yet out being still queued |
| `UnitWriter.ShortControlsNeverBreak` | internal/hub/writer.go:316-324 | while no control frame is longer than one unit no run of entries is an error at the peer |
| `UnitWriter.LongControlBreaks` | internal/hub/writer.go:285-324 | the error is reached: a fresh writer sends any frame of several units, a control frame longer than one unit is queued meanwhile, and the peer fails |
| `UnitWriter.Writer.WriteFrame` | internal/hub/writer.go:285-316 | one frame arrives whole after exactly the control frames its turns take from the queue (none for a plain frame of one unit; otherwise one before it and one before each later unit, while any is queued); it is an error exactly if one of those between its units is longer than a unit |
| `UnitWriter.ShorterGoesOut` | internal/hub/writer.go:285-295 | what goes out is the frame or its deflated form, never longer than the frame, and the shorter of the two where deflating is allowed and worth trying |
| `UnitWriter.Writer.InterleaveControl` | internal/hub/writer.go:318-324 | the oldest queued control frame goes out and leaves the queue; an open frame is undisturbed unless the control frame takes several units |
| `UnitStream.Transport.Send` | cmd/capri-hub/main.go:2138-2149 | a whole frame of any size, sent under an id at or above 2^31, reaches the peer and leaves an open run alone, unless it takes several units and a run is open: then the peer meets an error |
| `EpochIsolation.EpochsStayApart` | internal/hub/hub.go:372-419 | over every interleaving of gate, enqueue, dequeue check, broadcast and attach: no event of a retired epoch is broadcast after a later reset, an accepted reset precedes every event of its epoch, and once cleared the ring holds current-epoch events only |
| `EpochIsolation.RunKeepsInv` | internal/hub/hub.go:1915-1977 | the underlying invariant (epoch order, reset order, ring contents) holds in every reachable state |
| `EpochFlow.NothingCurrentIsLost` | internal/hub/hub.go:1915-1977 | over every interleaving without a new epoch: what was broadcast, held by the drain or queued of the current epoch grows by exactly the events that found room in the queue and the reset, in that order |
| `EpochFlow.AnnouncedAsInstalled` | internal/hub/hub.go:372-419 | from the moment it is installed an epoch is announced with the baseline of its own attach or not at all |
| `EpochFlow.DrainDeliversAll` | internal/hub/hub.go:372-419 | the drain left alone broadcasts everything queued of the current epoch, in order, and nothing else |
| `EpochFlow.RingTakesAll` | internal/hub/hub.go:1915-1977 | between attaches the ring takes every event gated, in order, whether or not it finds room in the queue |
| `EpochIsolation.ResetAcceptedExactlyWhen` | internal/hub/hub.go:3613-3630 | a reset is accepted if and only if there is no queue yet or the queue has room |
| `EpochIsolation.ResetCanBeLost` | internal/hub/hub.go:389-396 | whatever the capacity, a run from the start fills the queue and attaches a second epoch whose reset is neither queued nor delivered |
| `EventRing.GapPullMissesNothing` | internal/hub/hub.go:2021-2043 | in whatever order events arrive, a gap pull answers with exactly the events it would have if nothing were ever forgotten, each as often, when the events missed number at most eventBufCap and fit the byte cap |
| `EventRing.GapPullIsComplete` | internal/hub/hub.go:2021-2043 | for in-order events also in the same order |
| `EventRing.RecentEventsAreHeld` | internal/hub/hub.go:1622-1653 | of an in-order history any such recent run is still held |
| `EventRing.BufferedIsSuffix` | internal/hub/hub.go:1622-1653 | for in-order events the buffer is a suffix of everything ingested |
| `EventRing.BufferedIsBounded` | internal/hub/hub.go:1622-1653 | for any order: sorted, at most evBufHighWater events, at most evBufByteCap bytes, made of ingested events only |
| `EventRing.CopiesAreAmortised` | internal/hub/hub.go:1632-1637 | count compactions copy in total at most one event per event ingested |
| `EventRing.HostBuffer.BufferEvent` | internal/hub/hub.go:1622-1653 | append or binary-search splice, count compaction and byte trim give exactly the specified buffer with exact byte count |
| `EventRing.HostBuffer.EventsAfter` | internal/hub/hub.go:2021-2043 | the binary search returns exactly what filtering every event by seq > after returns |
| `FeRuns.DeliveredInOrder` | internal/hub/hub.go:2757-2840 | over every run of offers, pump steps and stops: delivered events are an in-order part of those offered, and offered = delivered + dropped + waiting |
| `FeRuns.CriticalLostOnlyWhenFull` | internal/hub/hub.go:2757-2774 | a critical event is lost if and only if it is offered with every slot taken, and then at least the whole reserve holds critical events |
| `FeRuns.LostAtDoorExactlyWhen` | internal/hub/hub.go:2757-2774 | an event is lost at the door if and only if its share of the slots is taken, subRingCap for an ordinary one and every slot for a critical one; otherwise it is queued behind all others and nothing is dropped |
| `FeRuns.ResyncGoesFirst` | internal/hub/hub.go:2783-2808 | a queued resync is told before anything more is delivered |
| `FeRuns.LossIsReported` | internal/hub/hub.go:2872-2896 | drops not covered by a queued resync are fewer than the threshold and none critical; the newest resync is queued, being sent or the last one told, while the pump lives |
| `FeRuns.EscalatesExactlyWhen` | internal/hub/hub.go:2872-2882 | a drop queues a resync if and only if it is critical or the 32nd since the last |
| `FeRuns.PumpMakesProgress` | internal/hub/hub.go:2782-2826 | from rest, three pump steps deliver the event that has waited longest and free its slot |
| `FeRuns.PumpDeliversAll` | internal/hub/hub.go:2782-2826 | a pump left alone with room in the browser's channel delivers the whole queue in order, drops nothing and comes to rest with the queue empty |
| `FeSubscriber.Subscriber.Enqueue` | internal/hub/hub.go:2757-2774 | the circular buffer is a FIFO with the two tiers, and a refusal is noted as a drop |
| `FeSubscriber.Subscriber.Look` | internal/hub/hub.go:2783-2808 | a pending resync is taken out first; otherwise the oldest event is seen and keeps its slot |
| `FeSubscriber.Subscriber.Pop` | internal/hub/hub.go:2821-2825 | the oldest event leaves and its slot is cleared |
| `FeSubscriber.Subscriber.NoteDrop` | internal/hub/hub.go:2872-2896 | the counter and the resync slot after a drop, exactly |
| `FeSubscriber.PushUnrolls` | internal/hub/hub.go:2768-2769 | writing the slot behind the last one appends to the queue the ring stands for |
| `FeSubscriber.PopUnrolls` | internal/hub/hub.go:2822-2824 | clearing the head slot and moving on drops the oldest, and only it |
| `Viewing.ViewingSetCovers` | internal/hub/hub.go:3427-3504 | unless widened the set holds every declared session and its direct children, fits the caps, and every watching browser has declared; nothing is said exactly when nobody watches |
| `Viewing.DeclaredIsShown` | internal/hub/hub.go:3427-3484 | the set is widened before any child is followed if and only if a watching browser has not declared or what they show exceeds a cap |
| `Viewing.WatchersAreCounted` | internal/hub/hub.go:3427-3484 | the number of watchers is that of the browsers that watch |
| `Viewing.OrderIndependentExactlyWhen` | internal/hub/hub.go:3485-3503 | the answer is the same in every map order if and only if no direct child has a child of its own outside the set, or the direct children alone do not fit |
| `Viewing.ClosedSetIsExact` | internal/hub/hub.go:3427-3504 | in that case it is exactly the declared sessions and their direct children, or everything |
| `Viewing.OrderMatters` | internal/hub/hub.go:3485-3503 | otherwise two orders of the same map give different answers |
| `Viewing.ResolveViewingSet` | internal/hub/hub.go:3427-3504 | the loops with their early exits compute the specified set |
| `AudienceGen.GenerationsAreFaithful` | internal/hub/hub.go:3542-3572 | over any run generations start at 1 and never fall, and equal generations mean equal contents when session ids contain no NUL |
| `AudienceGen.RepeatsKeepTheirGeneration` | internal/hub/hub.go:3559-3570 | a snapshot keeps the generation before it if and only if its contents are the same |
| `AudienceGen.KeyIsFaithful` | internal/hub/hub.go:3529-3537 | without NULs in ids the change key is injective |
| `AudienceGen.KeyTellsApartExactlyWhen` | internal/hub/hub.go:3529-3537 | the key tells an audience from every NUL-free one if and only if its own ids have no NUL |
| `AudienceGen.NulHidesChange` | internal/hub/hub.go:3529-3537 | and a witness among snapshots a receiver accepts: two valid audiences share a key |
| `AudienceGen.SnapshotIsValid` | wire/frame.go:186-204 | every stamped snapshot passes the receiver's validation |
| `AudienceGen.HostAudience.Audience` | internal/hub/hub.go:3542-3572 | the snapshot describes the resolved viewing set with its sessions sorted; generation, key and the changed flag are exact |
| `Prefs.WritesConverge` | internal/hub/prefs.go:73-105 | histories that offer the same records, in any order, batches and repetition, end with the same entries when clock and site settle a record and no tombstone is past the horizon |
| `Prefs.WrittenIsNewest` | internal/hub/prefs.go:73-105 | per key the record left is one that was offered, and no offered one has a later clock, or the same clock and a site that sorts above; no key is lost |
| `Prefs.StaleWritesNeverRevive` | internal/hub/prefs.go:82-105 | any number of writes that are no later by clock and site leaves a deletion in force for sixty days |
| `Prefs.RevivedExactlyWhen` | internal/hub/hub.go:909-922 | one write brings a deleted item back if and only if it carries a live record of it with a later clock, or the same clock and a site that sorts above |
| `Prefs.PrunedTombstoneRevives` | internal/hub/prefs.go:95-102 | once a deletion more than sixty days old was pruned, any live record brings the item back |
| `Prefs.OnlyOldDeletionsGo` | internal/hub/prefs.go:95-102 | no write leaves a deletion more than sixty days old, and none drops anything else |
| `Prefs.LegacyLosesTieExactlyWhen` | internal/hub/prefs.go:50-53 | a migrated entry loses a tie if and only if the client's site sorts above its label; a site that sorts below loses to it |
| `Prefs.SameIsExact` | internal/hub/prefs.go:172-182 | the equality test is exact when no record is the zero record |
| `Prefs.SameMissesZero` | internal/hub/prefs.go:172-182 | a set with a zero record passes as equal to a different set |
| `Prefs.MergeEntries` | internal/hub/prefs.go:82-92 | the merge loop keeps per key the incoming record exactly when it is new or wins |
| `Prefs.PruneTombstones` | internal/hub/prefs.go:95-102 | exactly the tombstones past the horizon go |
| `PrefsDoc.Project` | internal/hub/prefs.go:107-131 | the projection is exactly the live keys of each family, pins sorted without repetition |
| `PrefsDoc.ViewIsUnique` | internal/hub/prefs.go:107-131 | that property determines the projection: map order cannot show |
| `PrefsDoc.MigrationKeepsSnapshot` | internal/hub/prefs.go:144-162 | migrating an old document and projecting it gives back its pins, todos and boolean flags |
| `PrefsDoc.EntriesFromSnapshot` | internal/hub/prefs.go:144-162 | exactly the records an old document stands for, stamped with the migration time and the legacy site |
| `PrefsDoc.PrefsStore.SetPrefs` | internal/hub/hub.go:873-922 | the version rises by one exactly when the entries change, and then the projection is recomputed; otherwise nothing changes |
| `PairLimiter.PruningIsInvisible` | cmd/capri-hub/main.go:392-435 | with a clock that does not run backwards and any mix of attempts and sweeps every decision equals that of a limiter that never forgets |
| `PairLimiter.NoWindowOverflows` | cmd/capri-hub/main.go:409-435 | no closed window holds more than the limit of accepted hits of one address |
| `PairLimiter.Limiter.Allow` | cmd/capri-hub/main.go:409-435 | decision and new hit table, exactly |
| `PairLimiter.Limiter.Prune` | cmd/capri-hub/main.go:392-405 | every address keeps exactly its hits since the cutoff, and addresses without any go |

## Left out

- Integer widths: sequence numbers, generations and counters are unbounded; wrap-around of 64-bit counters is not modelled. Unit headers are exact 32-bit words.
- Encoding: JSON, base64 and deflate are abstract. A payload is its frame, the stamped ack and its length; chunk decoding and body validity are parameters; a deflated form is an input.
- Clocks are numbers passed in; the timers of a session's loop are not modelled.
- Slices are values: sharing of backing arrays between the sender's log, a batch handed out and a buffer is not captured, nor are maps shared by reference; a pending request is a value in its table.
- UnitWriter.Writer.WriteEntries: assumes the transport and writer counters stay below 2^31 and every frame fits the peer's limit and a 32-bit length, because the ids wrap and the peer refuses the frame otherwise.
- Delivery.RoundsDrain: states progress for fault-free rounds; which rounds a real channel completes is not modelled.
- Ingest.AckedIsAccountedFor: covers one epoch; events skipped because their body is not an object are not modelled.
- AudiencePeer.NewerIsToldExactlyWhen: counts every copy a writer has read as one it may still write, also after its session ended; the peer keeps the newest generation it has applied, and on a resume takes the newest pushed snapshot from hello_ack.
- FeRuns.LossIsReported: takes each drop with its escalation as one step, and says nothing of resyncs once the pump has ended.
- RelayPlane.RelayHost.FailPending: an abort record stays for every closed request only while records fit the bound; which of several equally old records goes first is open, as in the program.
- The writer's `written` watermark, its rewrite channel and the choice between them (`writer.run`): a number at or below it need not have been written, and replay repairs that.
- The control queue's coalescing and depth bound: only its order is modelled.
- The count of late chunks, the texts of failure answers, and log lines.
- Loading, persisting and broadcasting preferences: the store starts from sanitized entries and any projection.
- Sockets, QUIC, WebSocket, HTTP handlers, TLS, tickets, pairing codes, users, guests, the close-reason table and limit validation: plumbing and table lookups without deep invariants.
- The browser and host programs beyond the shared sender and receiver, and restarts of the hub process.
