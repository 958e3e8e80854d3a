# BIND-19 transport: model and proofs

BIND-19 carries control frames between a sender and a hard-real-time gate. This project models
the parts of the Rust crate where its safety arguments live, and proves what they promise over
all inputs, all runs and all interleavings:

- the **frame codec** (`Bytes`, `Pfp`, `Sap`, `Frame`, `FrameCodec`, `FrameStream`): an 8-byte
  header, the optional PFP and SAP layers, the payload; bit by bit, in both directions, as one
  buffer and as a stream cut into arbitrary chunks. The layout is that of
  spec/BIND-19.md:16-43;
- the **replay cache** twice: as a sequential class with whole-run theorems (`ReplayCache`,
  `ReplayRuns`), and as a transition system in which `n` threads interleave the separate
  accesses of `check_and_update` (`ReplaySteps`, `ReplayVerdicts`, `SingleFlight`,
  `Replays`, `Overlap`);
- the **frame processor** on top of it (`Processor`);
- the **audit log** (`AuditLog`, `HashChain`): a hash chain kept in a bounded window, and what
  a verified chain binds;
- the **catastrophic manager** (`CatastrophicManager`, `BusOrder`): send, then append, on clones
  that share bus and log;
- **key rotation** (`Rotation`, `RotationSession`): the state machine over all call sequences,
  and the whole lifecycle of sender, lossy channel and receiver on wire bytes;
- the **gate** (`TuckGate`) that composes catastrophic detection with the processor.

## How it is modelled

Code that changes state in place is a class whose methods are proved against a function on
values; pure code is functions. Theorems about runs are stated on those functions, so they hold
of the classes. Run functions take the calls in order and are defined from the last call
backwards.

Modelling decisions:

- Clock readings (`Instant`, as nanoseconds) and event time stamps are parameters of the call
  that takes them. `elapsed()` is zero when the clock reads less than the stored time.
- `usize` has 64 bits. Lengths are unbounded integers. The u64 counters of the audit log wrap,
  as in a release build; the u16 counter of SAP wraps, as written.
- SHA-256 (section 6.2 of FIPS 180-4) is an arbitrary function from byte strings to 32 bytes.
  Nothing is assumed of it. Feeding a hasher piece by piece hashes the concatenation.
- In the step model of the cache, one step is one access: `get` with the load of `last_seq`
  (keeping the shared guard), compare with store and release of the guard, `len()`, `insert`,
  the restoring `insert`, `remove`. An access that needs exclusive access to a key is blocked while some thread
  holds a guard on that key. DashMap locks whole shards; blocking per key allows more
  interleavings, so what is proved for all of them holds for the shards too. `len()` is assumed
  to be one atomic read. `clear` and `cleanup_expired` delete entries one by one in the step
  model, each at any time and whichever they like, which covers every schedule of both.
- In the step model of the manager, sending and appending are two steps; the receiver is alive
  and the mutex unpoisoned. Triggers are numbered by the order of the calls.
- The bus is an unbounded FIFO. The gate of the example drops the receiver when it is made, so
  there every send fails and its result is discarded, as in the source.

Where the code and its own documentation disagree, the code is followed:

- `check_and_update` is documented as allowing "one duplicate frame" when two threads register a
  source at once (src/replay_cache.rs:152-154). More can happen while the source stays registered:
  `Overlap.RestoreReplay` has the registration race, in which every number up to one already
  accepted passes while a smaller one is stored, and a larger number accepted in between is erased
  when the old one is put back, so that numbers up to it pass again (the put-back even undoes a
  cleanup that ran just before, `Overlap.RestoreUndoesLoss`); `Overlap.OverlappingCalls` has
  two calls on a registered key, after which every number between theirs passes again, and equal
  numbers both pass. `Replays.FirstReplayExactly` says exactly when a run first lets a number pass
  again, `SingleFlight.LowersExactly` exactly which steps lower a stored number,
  `SingleFlight.ExplainedExactly` exactly which steps no sequential call explains. No run passes a
  number twice, and none lowers one, exactly if there is at most one thread
  (`Overlap.NoNumberPassesTwice`, `Overlap.NumbersNeverFall`); for more threads, one call per key in
  flight is enough (`Replays.AcceptedIncrease`, `SingleFlight.FlightNeverLowers`).
- A removal, clear or cleanup starts a source afresh, also with one thread: after it, old numbers
  pass again (`RotationSession.DuplicateAfterSweep`).
- `BindFrame::decode` checks completeness before the 64 MB limit (src/frame.rs:304-310), where the
  parser sketched in spec/BIND-19.md checks the limit first, and it accepts SAP without PFP, which
  `new` refuses (src/frame.rs:229-231): `FrameCodec.ErrorOrder`, `FrameCodec.SapAloneDecodes`.
  The processor then checks such a frame for replay.
- Unassigned header flags are kept by the decoder, not ignored: they come back on re-encoding.
- `verify_chain` starts from the all-zero hash (src/catastrophic.rs:186), so after an eviction it
  fails unless the evicted hash happens to be zero: `AuditLog.WindowVerifies` has the exact condition.
- An event's bytes do not determine the event (src/catastrophic.rs:69-84):
  `HashChain.SerializeFields` says exactly what they determine.
- The catastrophic test uses the raw risk level. The example's remark that a frame without replay
  protection cannot be an override (examples/tuck_integration.rs:157-158) is false:
  `TuckGate.UnprotectedOverride` has the exact condition, `TuckGate.UnprotectedOverrideExists` a frame.
- Tenants are isolated up to the shared capacity (src/replay_cache.rs:165-168). When it is
  exhausted they are not: `ReplayRuns.IsolationExact` and `ReplayRuns.OnlyCapacityIsShared` have the
  exact conditions, `ReplayRuns.FullCacheInterferes` the failing runs.
- Bus and log record the same events but not always in one order: `BusOrder.OrdersAgreeExactly`.
- A frame of an old session that arrives after `remove_source` passes, and then blocks the new
  session up to its number: `RotationSession.StaleFrameBlocksSession` has such runs,
  `RotationSession.UndisturbedExactly` the exact condition under which a session is undisturbed.
- `can_send_data` lets data out while a rotation is pending (src/rotation.rs:176-178). That no data
  leaves then is the sender's own rule to stop at the threshold, as in `RotationSession`.

## Model

| member | source | states |
|---|---|---|
| Pfp.FillBuffer | src/pfp.rs:217-239 | the masks, shifts and ORs into a zeroed buffer give the positional bit layout of the PFP header |
| Pfp.DecodeEncode | src/pfp.rs:217-268 | decoding an encoded header gives it back with the reserved bits zero, and the magic verifies |
| Pfp.EncodeDecode | src/pfp.rs:217-273 | re-encoding received bytes clears the five reserved bits of byte 3 and changes nothing else |
| Pfp.CatastrophicTestsAgree | src/catastrophic.rs:327-333 | the manager's raw-byte test agrees with the header test, for every header re-encoded and every four bytes decoded; the one means both level bits and the override bit set, the other level Catastrophic with a hard override |
| Pfp.FieldLayout | src/pfp.rs:35-159 | each feature by the value of its two bits and each control by its bit, named case by case, for decoded headers and for the bytes the encoder writes |
| Pfp.EffectiveRiskOnWire | src/pfp.rs:284-291 | each effective level in terms of the level bits and the replay bit of received bytes |
| Pfp.OverrideIgnoresDowngrade | src/pfp.rs:276-291 | an override header is caught by the raw-byte test whatever rule 6 makes of its level; rule 6 lowers it exactly when replay protection is off |
| Sap.FillBuffer | src/sap.rs:77-101 | filling the 28 bytes field by field gives the documented layout |
| Sap.DecodeEncode | src/sap.rs:77-132 | magic and protocol id verify, and decoding loses exactly the high nibble of the version: nothing iff the version is below 16 |
| Sap.EncodeDecode | src/sap.rs:77-132 | re-encoding received bytes clears the high nibble of byte 3 and changes nothing else |
| Sap.IncrementWraps | src/sap.rs:140-151 | incrementing adds one, wraps from 65535 to zero and changes nothing else; rotation is needed exactly at 65534 and 65535 |
| Frame.Encode | src/frame.rs:268-289 | the growing buffer is header, PFP, SAP and payload in that order |
| Frame.Decode | src/frame.rs:292-354 | the offset-walking decoder finds the frame, or the first error, that the layout determines |
| FrameCodec.TypeRoundTrip | src/frame.rs:73-101 | the eight wire codes by name, every other byte kept as unknown; type bytes survive decoding, and a type survives encoding iff it does not hide a named code in `Unknown` |
| FrameCodec.HeaderRoundTrip | src/frame.rs:135-154 | a header survives the wire iff its type does |
| FrameCodec.HeaderReencoded | src/frame.rs:135-154 | eight received bytes survive decoding and encoding |
| FrameCodec.RoundTrip | src/frame.rs:268-354 | decode(encode(f) + anything) is f iff flags, layers, length and ranges of f are consistent |
| FrameCodec.NewRoundTrip | src/frame.rs:216-255 | exactly when `new` fails, and with which error; what it builds has the fields given, the announced length, flags 0x08 and 0x10 for the layers and no other, and round-trips iff type, reserved bits and SAP version are canonical |
| FrameCodec.Reencode | src/frame.rs:268-354 | whenever decoding succeeds, re-encoding gives the first total-length bytes with only the reserved bits of PFP byte 3 and SAP byte 3 cleared |
| FrameCodec.Stable | src/frame.rs:292-354 | any answer but an incomplete one is unchanged by appending bytes |
| FrameCodec.ProperPrefix | src/frame.rs:292-307 | every proper prefix of an encoding is incomplete, in the header or in the frame |
| FrameCodec.SelfDelimiting | src/frame.rs:182-196 | one byte string cannot begin with two different frames |
| FrameCodec.ErrorOrder | src/frame.rs:292-354 | for all bytes, exactly which of the errors is reported, in terms of the raw bytes |
| FrameCodec.PfpLayout | src/pfp.rs:244-268 | which bits of bytes 2 and 3 hold each PFP field |
| FrameCodec.WireLayout | spec/BIND-19.md:16-43 | every field of a received frame by its byte position and order: type code, header, big-endian length, layers announced by flags 0x08 and 0x10, all PFP fields by their bits, SAP magic, id, version, counter, hash and signature, payload |
| FrameCodec.SapAloneDecodes | src/frame.rs:216-231 | SAP without PFP is refused by `new` but decodes |
| FrameStream.StreamRoundTrip | src/frame.rs:182-354 | concatenated encodings, decoded and skipped one after the other, are exactly the list |
| FrameStream.FeedIsParse | src/frame.rs:292-354 | parsing a chunk together with the leftover bytes gives the same frames, rest and error as parsing everything at once |
| FrameStream.ChunkingIrrelevant | src/frame.rs:292-354 | so the frames found do not depend on how the stream was cut |
| FrameStream.ChunkedTransport | src/frame.rs:182-354 | frames sent and cut anywhere arrive as exactly those frames, with nothing left over |
| FrameStream.BytesConserved | src/frame.rs:182-354 | parsing consumes exactly the bytes of the frames it reports; the rest is the untouched suffix |
| FrameStream.ParseStops | src/frame.rs:292-354 | parsing stops at the first bytes that are no frame, with their error unless more bytes may still complete them |
| ReplayCache.ReplayCache.CheckAndUpdate | src/replay_cache.rs:155-193 | the in-place update of entry objects is the cache function: new content and verdict |
| ReplayCache.ReplayCache.CheckOnly | src/replay_cache.rs:196-210 | the preview reads the cache and gives the preview function's verdict |
| ReplayCache.ReplayCache.LastSeq | src/replay_cache.rs:213-215 | the stored number, or none |
| ReplayCache.ReplayCache.CleanupExpired | src/replay_cache.rs:220-225 | deletes exactly the entries idle for more than the TTL and returns how many there were |
| ReplayCache.ReplayCache.Remove | src/replay_cache.rs:228-230 | forgets the key alone and tells whether it was there |
| ReplayCache.ReplayCache.Clear | src/replay_cache.rs:233-235 | forgets everything |
| ReplayRuns.RefinesHistory | src/replay_cache.rs:155-235 | in every run the cache answers every call as a reference cache that remembers all accepted numbers, and holds the newest acceptance of each registered key |
| ReplayRuns.ReplaySafety | src/replay_cache.rs:155-193 | accepted numbers strictly increase while a key is registered, are at most last - first + 1 many, and the stored number is their maximum |
| ReplayRuns.EpochIncreases | src/replay_cache.rs:155-210 | while a key stays registered, a number up to an accepted one is refused by check and by preview |
| ReplayRuns.RefusedForTtl | src/replay_cache.rs:71-83 | an accepted number, and every smaller one, is refused until the TTL has passed, however often cleanup runs |
| ReplayRuns.CleanupExact | src/replay_cache.rs:220-225 | cleanup drops a key iff more than the TTL has passed since its last acceptance |
| ReplayRuns.NonInterference | src/replay_cache.rs:155-235 | in a run that never tells a set of keys "full" (other keys may be told so), the set gets the answers, and has the stored entries, of the run with all other keys' calls deleted |
| ReplayRuns.IsolationExact | src/replay_cache.rs:155-210 | for keys that have room alone: their answers are those they would get alone iff they have room in company, that is, iff each of their calls finds its key stored or the cache below capacity |
| ReplayRuns.RoomIsNeverFull | src/replay_cache.rs:165-168 | having room in this sense is never being answered "full" |
| ReplayRuns.OnlyCapacityIsShared | src/replay_cache.rs:155-235 | for any keys and any run: their answers are those they would get alone iff the same calls are answered "full" |
| ReplayRuns.FewKeysNeverFull | src/replay_cache.rs:165-168 | a run naming no more keys than the capacity never answers "full" |
| ReplayRuns.TenantIsolation | tests/multi_tenant_test.rs:46-88 | a tenant with at most 100000 sources, among any traffic of others, gets the answers it would get alone iff each of its calls finds its key stored or the cache below capacity; the same for any single key; with at most 100000 keys in all, they do |
| ReplayRuns.FullCacheInterferes | src/replay_cache.rs:165-168 | whenever the cache is full and a key absent, that key is told "full", which it never would be alone, so its answers differ from those it would get alone |
| ReplayRuns.CapacityBound | src/replay_cache.rs:155-193 | no sequential run exceeds the capacity |
| ReplaySteps.ConcurrentCapacity | src/replay_cache.rs:155-193 | no interleaving of n threads stores more than 100000 - 1 + n entries, restores and removals included; one thread at most 100000 |
| ReplaySteps.CapacityBoundReached | src/replay_cache.rs:165-173 | that bound is reached, for every capacity and number of threads |
| ReplaySteps.CallEnds | src/replay_cache.rs:155-193 | which accesses end a call, and that each changes at most the entry of the call's key |
| ReplaySteps.GuardProtects | src/replay_cache.rs:157-163 | while a guard is held on a key, only the store of a guard holder changes its entry |
| ReplaySteps.BlockedExactly | src/replay_cache.rs:157-190 | a thread is blocked exactly if it is idle or must insert, restore or remove under someone's guard |
| ReplaySteps.RemovalRemoves | src/replay_cache.rs:228-235 | a removal with no guard against it deletes the key and nothing else; so does the loss of one entry to cleanup or clear |
| ReplayVerdicts.SoundRun | src/replay_cache.rs:157-193 | in every interleaving each stored or displaced number was stored by a begun call for that key and number, other than the one that reads it |
| ReplayVerdicts.CallsBegan | src/replay_cache.rs:155 | every call on record was begun by an idle thread at the step that numbers it |
| ReplayVerdicts.VerdictsJustified | src/replay_cache.rs:155-193 | in every interleaving: rejected only if another call for the key with a number at least as large had begun, and such a number was stored during the call; allowed only if the key was absent or held less during the call; full only at capacity |
| SingleFlight.FinishIsAtomic | src/replay_cache.rs:155-193 | a finishing call whose reads still hold is one atomic call on the sequential cache; its verdict differs at most by letting in a new key at capacity |
| SingleFlight.StepRefines | src/replay_cache.rs:155-235 | a step whose reads still hold is a stutter or one sequential call with the same answer |
| SingleFlight.ExplainedExactly | src/replay_cache.rs:155-235 | in every run, a step is a stutter or one sequential call with the same answer iff the acting thread's reads still decide as the cache does now |
| SingleFlight.TimelyLinearizable | src/replay_cache.rs:155-235 | an interleaving of such steps is a sequential run with the same answers and content, at capacity plus n, "full" answers left out |
| SingleFlight.Linearizable | src/replay_cache.rs:155-235 | in particular every interleaving with one call per key in flight, with clear and cleanup anywhere |
| SingleFlight.LinearHistory | src/replay_cache.rs:155-235 | the reference history of the corresponding sequential run increases per key, and the cache holds the last of it |
| SingleFlight.LowersExactly | src/replay_cache.rs:157-190 | from any state, a step lowers a stored number iff it stores, inserts or puts back less than is there: the three ways of acting on an outdated read |
| SingleFlight.FlightNeverLowers | src/replay_cache.rs:157-190 | no step of a run with one call per key in flight does |
| Replays.TimelyIncrease | src/replay_cache.rs:155-193 | in an interleaving whose reads all still hold, no number passes twice while its key is not removed, cleaned up or cleared |
| Replays.AcceptedIncrease | src/replay_cache.rs:155-193 | with one call per key in flight: of two calls for a key that the interleaving itself allows, with no removal of the key taking effect in between, the later-finishing one has the larger number |
| Replays.FirstReplayExactly | src/replay_cache.rs:157-163 | after steps whose reads held, an allowed call lets a number pass again iff its own read no longer holds: a number at least as large is stored when it finishes |
| Overlap.OverlappingCalls | src/replay_cache.rs:157-163 | two calls that load the same number can both be allowed and leave the smaller number; afterwards exactly the numbers above it pass, so all in between pass again |
| Overlap.RestoreReplay | src/replay_cache.rs:171-190 | two threads register one key, the larger number returns Allowed, the smaller is inserted over it: until it is put back, exactly the numbers above the smaller pass, the larger one included; after that exactly the numbers above the larger, so those up to one accepted in between pass again |
| Overlap.RestoreUndoesLoss | src/replay_cache.rs:178-186 | a run in which the key is lost to cleanup or clear just before the restoration, which registers it again with its old number |
| Overlap.NumbersNeverFall | src/replay_cache.rs:155-193 | no step of any run of n threads lowers a stored number iff n <= 1 |
| Overlap.NoNumberPassesTwice | src/replay_cache.rs:155-193 | no run of n threads lets a number pass twice while its key stays registered iff n <= 1 |
| Processor.FrameProcessor.ProcessFrame | src/processor.rs:93-122 | verdict and cache change of one frame, early answers included, with the answer for every case of SAP, replay bit, stored number and size |
| Processor.FrameProcessor.CheckFrame | src/processor.rs:125-147 | the preview's verdict, with the same table; nothing changes |
| Processor.AnswerTable | src/processor.rs:93-147 | the full answer table of processing and preview on raw fields, SAP without PFP being checked: which of the four answers, and that the number is stored exactly if a check passed it |
| Processor.FrameProcessor.CleanupExpired | src/processor.rs:160-162 | the cache keeps exactly the unexpired entries; the count is what vanished |
| Processor.FrameProcessor.LastSeq | src/processor.rs:165-168 | the stored number of the tenant's source |
| Processor.FrameProcessor.RemoveSource | src/processor.rs:171-174 | forgets that source of this tenant only |
| Processor.PreviewIsVerdict | src/processor.rs:93-147 | the preview gives the verdict that processing the frame in the same state would |
| Processor.SilentCallsRemovable | src/processor.rs:93-147 | deleting all no-SAP, replay-disabled and preview frames from a run changes no other reply and not the final cache |
| Processor.RunsTheCache | src/processor.rs:93-174 | a processor run is a run of the replay cache on the calls it makes |
| Processor.PassedIsHistory | src/processor.rs:93-174 | what a source got through since it was registered is the reference history of its key |
| Processor.ProcessorReplaySafety | src/processor.rs:93-174 | for any frames (SAP without PFP too), previews, removals and sweeps, a source's passed numbers strictly increase since its registration, are at most last - first + 1 <= 65536, and `last_seq` is their maximum |
| AuditLog.CatastrophicAuditLog.Append | src/catastrophic.rs:104-167 | new entry with the hash of sequence, event hash and previous hash in this order, counters, last hash, and eviction of the oldest entry beyond 10000 |
| AuditLog.CatastrophicAuditLog.VerifyChain | src/catastrophic.rs:119-197 | true iff every entry's hash is that of sequence, event hash and previous hash, and every entry names the hash before it, the first one all zeros |
| AuditLog.EntryParts | src/catastrophic.rs:104-126 | which of the 72 hashed bytes of an entry hold which part |
| AuditLog.CatastrophicAuditLog.Clear | src/catastrophic.rs:200-205 | empties the log and restarts the chain but keeps the trigger count |
| AuditLog.RunIsWindow | src/catastrophic.rs:154-205 | after any run of append and clear the state is a function of the events since the last clear and the number of triggers |
| AuditLog.WindowLinks | src/catastrophic.rs:154-167 | the window's entries are the newest ones ever made, each linked to the one before it |
| AuditLog.WindowVerifies | src/catastrophic.rs:162-197 | `verify_chain` holds iff nothing was evicted or the most recently evicted hash is all zeros |
| AuditLog.SlidingWindow | src/catastrophic.rs:154-206 | at 10000 entries: exactly the last min(n, 10000) events since the last clear, consecutively numbered, each with the hash of its own bytes, linked, last hash right, triggers counted, and when the chain verifies |
| HashChain.Binding | src/catastrophic.rs:185-197 | two verified logs that end in the same hash agree entry by entry, or the proof returns two byte strings with one hash, or, for different lengths, possibly a preimage of the zero hash |
| HashChain.HistoriesBound | src/catastrophic.rs:154-197 | the same for two whole append histories |
| HashChain.SerializeFields | src/catastrophic.rs:69-84 | two events have the same bytes iff time, PFP bytes, counter-or-zero and context followed by source agree |
| HashChain.SerializedParts | src/catastrophic.rs:69-84 | which positions of an event's bytes hold which field |
| HashChain.SerializeNotInjective | src/catastrophic.rs:69-84 | so `None` and `Some(0)` coincide, and context can be moved into the source |
| CatastrophicManager.EventBus.Send | src/catastrophic.rs:243-245 | queues the event, or fails exactly when the receiver is gone |
| CatastrophicManager.CatastrophicManager.HandleFrame | src/catastrophic.rs:327-366 | triggers iff both level bits and the override bit are set; then one event with all that was handed in goes to the bus if it is alive and to the log in any case |
| CatastrophicManager.OnlyOverridesTrigger | src/catastrophic.rs:338-350 | in the step model, a call does something iff its thread is idle and its bits say override, and then makes the event that reports it |
| CatastrophicManager.TriggerConservation | src/catastrophic.rs:338-366 | in every interleaving of n clones: sent = appended + between send and append; each thread's events keep their order in both; the log is always a valid window of what was appended |
| BusOrder.OrdersAgreeExactly | src/catastrophic.rs:352-362 | for every run, the log's order is a prefix of the bus's iff every append was made by the thread that had waited longest; the rest of the bus is then the queue of waiting events |
| BusOrder.DisjointOrdersAgree | src/catastrophic.rs:352-362 | while send and append of different threads do not overlap, the bus is the log and at most one more event |
| BusOrder.OrdersCanDiffer | src/catastrophic.rs:352-362 | with any two or more threads, the first of two events on the bus can be the second in the log |
| BusOrder.OrdersAlwaysAgree | src/catastrophic.rs:352-362 | the orders agree in all runs iff there is at most one thread |
| Rotation.PayloadRoundTrip | src/rotation.rs:53-72 | the nonce is the first twelve bytes and the key the rest; payloads and byte strings of at least twelve bytes correspond one to one, shorter ones are refused |
| Rotation.KeyRotationStateMachine.StartRotation | src/rotation.rs:125-135 | effect and answer in every state |
| Rotation.KeyRotationStateMachine.HandleAck | src/rotation.rs:140-149 | effect and answer in every state |
| Rotation.KeyRotationStateMachine.HandleTimeout | src/rotation.rs:155-171 | effect and answer in every state; the unwrap never fails |
| Rotation.KeyRotationStateMachine.ManualReset | src/rotation.rs:196-205 | effect and answer in every state |
| Rotation.KeyRotationStateMachine.CompleteRotation | src/rotation.rs:210-218 | effect and answer in every state |
| Rotation.DueExactly | src/rotation.rs:117-135 | rotation is due exactly when the counter is at the threshold and a start would be accepted |
| Rotation.RotationLedger | src/rotation.rs:125-218 | over every run: starts = acks + failures + pending, acks = completions + rotated, failures = resets + failed, at most three retries of each start (as many as the machine counts while pending) and four transmissions per start in all, every retry repeats the latest payload, a payload is stored exactly while pending |
| Rotation.FailClosed | src/rotation.rs:155-205 | Failed, and data forbidden, iff some started rotation saw four timeouts before any ACK and no reset followed |
| Rotation.TimeoutsFail | src/rotation.rs:155-171 | from Pending, timeouts alone reach Failed after exactly 4 - retries |
| Rotation.OnlyResetLeavesFailed | src/rotation.rs:196-205 | a run from Failed stays there throughout iff it contains no manual reset |
| RotationSession.DataFrameArrives | tests/integration_test.rs:52-78 | a data frame survives the wire and is checked under its counter |
| RotationSession.RotationFrameArrives | tests/integration_test.rs:128-151 | the rotation frame brings the key payload across the wire unchanged and is not replay-checked |
| RotationSession.SessionProtocol | tests/integration_test.rs:113-173 | over a channel that drops, repeats and reorders any frame ever sent, across rotations too, with cleanups at any time, in every run: the counter never wraps, and a frame passes iff its number exceeds all received since the source was last forgotten; other sources are untouched |
| RotationSession.RecordsAreArrivals | tests/integration_test.rs:113-173 | a number counts as received since the source was last forgotten iff some label delivered a frame with it and no later acknowledgement or sweep made the receiver forget the source; for frames of this session and of earlier ones |
| RotationSession.RejectedExactly | tests/integration_test.rs:113-173 | from the labels alone: any frame ever sent is rejected iff a number at least as large was delivered since the receiver last forgot the source, and passes otherwise |
| RotationSession.DuplicateAfterSweep | src/replay_cache.rs:220-225 | a run without rotation or late frame in which a frame passes, its TTL passes, a sweep forgets the source, and the same frame passes again |
| RotationSession.UndisturbedExactly | tests/integration_test.rs:159-169 | in every reachable state, the session's frames are judged by its own frames alone iff each late frame received since the source was forgotten is overtaken by a received one of the session, or no newer frame is outstanding |
| RotationSession.NoCrossingUndisturbed | tests/integration_test.rs:113-173 | if no frame crosses a rotation, every session's frames are judged by its own frames received since the source was last forgotten: in-order first deliveries pass, and a duplicate is rejected unless a cleanup forgot the source in between |
| RotationSession.SenderPauses | src/rotation.rs:174-178 | data is held back iff the machine has failed, the counter is at the threshold or the payload is too long; while pending the machine itself lets data out and the threshold rule stops it |
| RotationSession.MachineRuns | tests/integration_test.rs:113-173 | the machine of every session run is the rotation machine run on the calls made, so its theorems hold there |
| RotationSession.StaleFrameBlocksSession | src/processor.rs:171-174 | for every frame q of a full session there is a run in which it arrives after the rotation and passes, and then frame i of the new session passes iff i > q and is rejected iff i <= q |
| TuckGate.TuckGate.Decide | examples/tuck_integration.rs:55-87 | the re-encode-and-test path changes log and cache accordingly and answers by the frame's fields, the stored number and the cache's size: no SAP, override, reject or allow |
| TuckGate.GateTable | examples/tuck_integration.rs:55-87 | the gate's answer table on raw fields, and that an allowed checked frame stores its number, only an override changes the log and nothing else changes anything |
| TuckGate.OverrideIsLogged | examples/tuck_integration.rs:64-74 | the newest entry after an override: sequence, chaining, hash, and every field of its event, from the PFP bits to the source text |
| TuckGate.RejectsReplays | examples/tuck_integration.rs:76-86 | over every run and by the gate's own decisions: a checked frame is rejected iff an earlier checked frame of its source with a number at least as large was allowed, or none of its source was and the cache is full |
| TuckGate.GateProjection | examples/tuck_integration.rs:55-87 | over any run: the log records exactly the override frames and counts the override decisions; those frames never touch the cache; the other decisions are those of a processor that got only the remaining frames with PFP |
| TuckGate.DecisionsExactly | examples/tuck_integration.rs:55-86 | every decision of every run, by the frame's fields and the cache it meets |
| TuckGate.OverrideOnTheWire | examples/tuck_integration.rs:55-74 | on received bytes: override iff flag 0x08, both level bits of byte 10 and the override bit of byte 11 are set, whatever else the frame, the cache or the log hold |
| TuckGate.UnprotectedOverride | examples/tuck_integration.rs:146-159 | a frame with replay protection off is still an override iff its raw fields say so, although its effective level is MEDIUM |
| TuckGate.UnprotectedOverrideExists | examples/tuck_integration.rs:146-159 | a frame with replay protection off that comes over the wire as built and is answered as an override |
| TuckGate.GateReplaySafety | examples/tuck_integration.rs:76-86 | behind the gate, a source's passed numbers strictly increase and the cache holds the last |

## Left out

- Ed25519, signature truncation and key handling (src/crypto.rs): library calls; only an arbitrary hash function remains.
- Configuration from the environment (src/config.rs) and the effective risk level that depends on it.
- The receiving end of the bus (blocking receive, timeouts), wall-clock reads and the channel's internals; `EVENT_BUS_CAPACITY` is not enforced by the code.
- Mutex poisoning: an append or a trigger count behind a poisoned lock is skipped by the source and not modelled.
- DashMap's hashing and sharding, and the memory model below single accesses.
- The time stamp that `update_seq` stores in a second access: the step model keeps numbers only, and cleanup there may delete anything, so the TTL theorems are about sequential runs.
- `check_only` and `last_seq` in the step model: they change nothing.
- `clear` and `cleanup_expired` as single calls in the step model, and the count cleanup returns when other threads run: it is a difference of two separate `len()` reads.
- SingleFlight.Linearizable: calls answered "full" have no sequential counterpart in it, because the capacity test and the insertion are separate; `SingleFlight.FinishIsAtomic` says what such an answer means.
- SingleFlight.TimelyLinearizable: each call takes effect at the step that finishes it; whether a run with an untimely step could be explained by calls that take effect earlier is not asked.
- RotationSession.SessionProtocol: the receiver has room for the source, and sweeps use the TTL of one receiver; the acknowledgement reaches receiver and sender in one step.
- Increment and header objects (`increment_seq`, `BindHeader`, `BindFrame`) are values here, not objects changed in place.
- Rule 6 against rule 1: which should take precedence is disputed in the repository's own documents; only what the code computes is stated.
- Audit records for rule 6, second-layer verification, key revocation, version negotiation and checksums: documented, not implemented.
- Benchmarks, test vectors and their manifests, text output, `Display` and `Error` implementations, and getters.
