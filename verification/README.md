# Verified model of the RWA platform's protocols

This project states in Dafny what the platform's hardest server and wallet
logic does, and proves what it is for. `dafny verify dfyconfig.toml` checks all
of it.

## What is modelled

**The Solana indexer** (`ChainSource`, `CpiLog`, `CpiReasons`, `Base58`,
`Borsh`, `EventDecode`, `IndexerModel`, `Indexer`, `IndexerSafety`,
`IndexerDrain`, `IndexerEvents`). One poll pages a program's history newest
first, at most ten pages of a thousand signatures, ingests what it observed
oldest first, and moves a checkpoint row: the contiguous prefix when the whole
gap was seen, a frontier that later polls drain downwards otherwise. `Indexer`
writes this with the source's loops and store calls, each of which may fail, a
failed write being applied or not, and ties every outcome to functions of the
history (`IndexerModel`). `IndexerSafety` proves over every run that nothing
due below the checkpoint is missing, gives the exact condition for one poll to
keep that, and shows what is lost for good outside it. `IndexerDrain` proves
that error-free polls reach the tip and leave exactly what one oldest-first
pass would store, and `IndexerEvents` says in the chain's own terms what is
stored when. `CpiLog` proves that the stack machine over log lines recovers
which program emitted what, for every tree of calls and every text logged;
`EventDecode` that decoding inverts Borsh encoding.

**The reindex retention check** (`Retention`): what its verdict proves about
the history a node still serves.

**The legacy-message compiler** (`ShortVec`, `MessageTable`, `Message`):
decoding a compiled message gives back its meaning, its key table and header
are exact and canonical, the fee payer reads back, and a signed transaction
carries the message unchanged behind its one signature.

**The KYC inbox and outbox** (`StatusService`, `StatusInterleaving`,
`KycModel`, `KycOutbox`, `KycInbox`, `KycNewest`, `KycCollision`, `KycService`,
`KycReconciler`, `KycDrain`, `StatusMeaning`). `KycOutbox` is a state machine:
any number of deliveries in flight, each with its own copy of an event, one
sequential reconciler, other callers of SetStatus, and failures and crashes at
every store call, over stores whose claim is atomic or not. `KycNewest` says
when the newest decision of an address can be lost. `KycService` and
`KycReconciler` write the code's own steps and show that a delivery, and a pass
of the reconciler, are runs of the machine. `KycDrain` says what further passes
make of the newest decision once nothing fails any more. `StatusMeaning`
follows a status from its text in a delivery to the chain and back.

**Smaller cores**: the JSON limits stack machine (`Limits`), the schema guard
(`JsonPointer`, `SchemaGuard`, `SchemaDialect`, over `Exploration`), the
compliance read model (`ComplianceReplay`), the canonical query string
(`CanonicalQuery`), quotes and slippage (`Pricing`).

`Wrappers`, `Text`, `Sorting`, `TextOrder`, `Decimal` and `JsonValue` hold the
Go and JavaScript library functions these rest on.

## What the proofs found

- **Split slots.** The indexer's cut test compares slots
  (`server/internal/blockchain/indexer.go:631`). A checkpoint left inside a
  slot makes a later poll skip the rest of that slot for good
  (`IndexerSafety.SplitSlotIsLost`, `LostStaysLost`; a run that gets there, in
  `SplitSlotRun`).
- **Empty first page.** A backfill whose first page is empty closes its gap
  over whatever the node no longer serves
  (`IndexerSafety.PrunedFrontierIsLost`, `PrunedFrontierRun`). `NothingSkipped` is the exact
  condition for a poll to be safe (`PollKeepsInv`).
- **Failure reasons.** A "failed: reason" line whose reason ends in " success"
  is not recognised as an exit, and later lines are credited to the wrong
  program (`CpiLog.UnrecognisableExitMisattributes`; exactly which reasons, in
  `ReadFailedLine` and `UnrecognisableReasons`). Attribution is exact on every
  call tree exactly when no call can fail with such a reason
  (`CpiReasons.AttributionExactly`). The indexer reads no log of a
  failed transaction, so that this needs a successful transaction with a failed
  inner call in its log.
- **Idempotency lookup.** The in-memory store returns any record of a key, not
  the latest. Once a key has a failed and an unfailed record a call may
  broadcast again over the unfailed one (`StatusService.RepeatedBroadcast`;
  exactly when, in `RetrySafeExactly`). Two calls that look a key up before
  either stores a record are both broadcast
  (`StatusInterleaving.InterleavedCallsSendTwice`). The MongoDB store has a
  unique index on the key, under which neither can happen
  (`InterleavedCallsSendOnce`), but the documented retry of a failed attempt is
  refused on every later call (`UniqueIndexNeverRetries`).
- **Failed may have landed.** A record is marked failed after any error of the
  node's and after a mismatched signature, although the transaction may take
  effect. Its retry then takes effect a second time, even where lookups return
  the latest record (`StatusService.LandsTwice`; exactly when, in
  `LandsOnceExactly` and `LatestLandsOnceExactly`).
- **First claim in MongoDB.** Looking for an address's claim and inserting its
  first one are two steps there, and a duplicate key on insertion is taken for
  a claim at or above one's own
  (`server/internal/dal/mongodb/kyc_event.go:70-86`), which does not follow.
  When two deliveries for an address without a claim both match nothing and the
  older inserts first, the newer is superseded
  (`KycNewest.NewerLosesTheRace`). The newest decision is safe on every run
  exactly when the claim is atomic, as in the in-memory store
  (`NothingLostExactly`); otherwise it is lost only in this way
  (`LostOnlyWhenOvertaken`). The order of calls and the other guarantees of the
  outbox hold for both stores.
- **Stuck decisions.** A newest decision that is linked to a transaction left
  pending by a crash is never applied. One without a live link is applied
  whatever lookups return exactly unless its key has such a record or, under
  the unique index, a failed one, and is never applied exactly when its key has
  only such records (`KycDrain.NewestIsApplied`).
- **Joined keys.** provider + "|" + eventId identifies a decision exactly when
  no provider's name continues another's after "|"
  (`KycModel.KeysIdentifyExactly`). Otherwise, with MongoDB's index on the two
  fields, an older decision can reach the chain after a newer one
  (`KycCollision.OrderNeedsIdentifyingKeys`), and the in-memory store refuses a
  new decision as a replay (`JoinedKeysRefuse`).
- **Endless schemas.** "$defs" starts a fresh chain, so that a definition
  referring to the document around it is walked for ever
  (`SchemaGuard.GuardMayNeverEnd`), although the guard's comments promise a
  deterministic failure. Where everything reached is in the dialect, the guard
  ends exactly when no walk comes back to a schema under the same references
  (`GuardEndsExactly`); a document that also holds a bad schema may be rejected
  first or walked for ever, as the members happen to be visited
  (`OrderDecides`).
- **Large expiries.** An on-chain expiry above 2^63 - 1 is read back as "no
  expiry" (`ComplianceReplay.DecodedValuesSurvive`).

## Model

| member | source | states |
|---|---|---|
| ChainSource.Source.AddTx | server/internal/blockchain/fake_source.go:48-55 | the transaction is appended, whatever it is; a valid history stays valid when the new one is |
| ChainSource.Source.GetSignaturesForAddress | server/internal/blockchain/fake_source.go:87-117 | the signatures below before, newest first, down to the limit (0 is none), to until, or to the pruning point; an unknown or pruned before is an error |
| ChainSource.Source.GetTransaction | server/internal/blockchain/fake_source.go:128-141 | the transaction of that signature, or none |
| CpiLog.InvokeLineShape | server/internal/blockchain/indexer.go:383-404 | a line taken for an invoke has the runtime's shape, with a plausible id and the depth it says |
| CpiLog.PopLineShape | server/internal/blockchain/indexer.go:415-433 | a line taken for an exit has one of the runtime's two shapes |
| CpiLog.ParsePopLine | server/internal/blockchain/indexer.go:363-433 | only plausible program ids are ever pushed or popped |
| CpiLog.ReadInvokeLine | server/internal/blockchain/indexer.go:383-404 | every runtime invoke line is read as a push at its depth |
| CpiLog.ReadSuccessLine | server/internal/blockchain/indexer.go:415-433 | every success line is read as a pop of its program |
| CpiLog.ReadFailedLine | server/internal/blockchain/indexer.go:415-433 | a failure line is read as a pop of its program exactly when its reason is recognisable |
| CpiLog.LabelIsNotFraming | server/internal/blockchain/indexer.go:344-373 | no line that starts with a "Program log:" or "Program data:" label, whatever follows, is a push or a pop |
| CpiLog.ReadFlattened | server/internal/blockchain/indexer.go:482-513 | reading the log of a forest of calls gives its framing and emissions |
| CpiLog.ReplayTrace | server/internal/blockchain/indexer.go:482-513 | replaying a whole call leaves the stack as it was and adds exactly the calls' own emissions |
| CpiLog.AttributionIsExact | server/internal/blockchain/indexer.go:482-554 | for every forest of nested calls with any text logged, the machine credits to a program exactly the data lines of its own frames, in order |
| CpiLog.UnrecognisableExitMisattributes | server/internal/blockchain/indexer.go:415-433 | for any two programs and any unrecognised reason, a log where the caller's data line after the callee's exit is not credited to it |
| CpiReasons.AttributionExactly | server/internal/blockchain/indexer.go:415-554 | for any set of failure reasons, attribution is exact on every call tree whose calls fail with these reasons only, exactly when every one of them is recognisable |
| CpiReasons.RuntimeLines | server/internal/blockchain/indexer.go:383-433 | what each of the runtime's lines, as written, is read as |
| CpiReasons.MisplacedLinesIgnored | server/internal/blockchain/indexer.go:482-513 | an invoke line at another depth than the next, an exit of another program than the one on top and data of another program change nothing |
| Base58.KeysArePlausible | server/internal/blockchain/indexer.go:326-373 | the base58 text of every 32 bytes is accepted as a program id |
| Base58.AttributionOverKeys | server/internal/blockchain/indexer.go:482-554 | attribution is exact on every forest of calls between public keys |
| CpiLog.UnrecognisableReasons | server/internal/blockchain/indexer.go:415-433 | exactly the reasons "success" and those ending in " success" hide an exit |
| Borsh.LittleEndianInverse | server/internal/blockchain/borsh.go:69-86 | little-endian reading inverts little-endian writing |
| Borsh.ByteWeighs | server/internal/blockchain/borsh.go:69-86 | the byte at position i counts 256 to the i-th |
| Borsh.UnhexOfHex | server/internal/blockchain/borsh.go:88-97 | hexadecimal text reads back as the bytes, the higher half of each first |
| Borsh.Reader.Take | server/internal/blockchain/borsh.go:25-32 | exactly n bytes and the position moved past them, or an error and nothing moved |
| Borsh.Reader.Field | server/internal/blockchain/borsh.go:37-97 | one field's value and width, or an error on a short body or a bad bool |
| EventDecode.DecodeFields | server/internal/blockchain/decode.go:69-101 | the fields in schema order under their renamed keys, or an error |
| EventDecode.DecodePayload | server/internal/blockchain/decode.go:55-123 | name, fields and verdict as the decoding function says |
| EventDecode.DecodeInvertsEncode | server/internal/blockchain/decode.go:55-123 | for every schema and every values that fit it, decoding the encoded event gives back its name and values |
| EventDecode.DecodedReadsBack | server/internal/blockchain/decode.go:55-123 | the name is the listed override or else the schema's, each field is under its listed rename or else its own name, and its value, decimal and hexadecimal text included, reads back as what was encoded |
| EventDecode.DecodeAccepts | server/internal/blockchain/decode.go:55-123 | a payload is accepted exactly when its discriminator is registered, its body is as long as the field widths together, and every bool byte is 0 or 1 |
| Indexer.CheckpointStore.LoadProgramCheckpoint | server/internal/blockchain/checkpoint.go:21-30 | the row and that it existed, or an empty one and that none did, or an error |
| Indexer.CheckpointStore.AdvanceProgramCheckpoint | server/internal/blockchain/checkpoint.go:52-64 | the prefix moves and the frontier is cleared, all else of the row kept; a failure leaves the old row or the new |
| Indexer.CheckpointStore.SetBackfillFrontier | server/internal/blockchain/checkpoint.go:79-91 | frontier, target and prefix are set, all else kept |
| Indexer.CheckpointStore.RecordSuccessfulPoll | server/internal/blockchain/checkpoint.go:109-116 | the heartbeat is set, all else kept |
| Indexer.ReverseSigs | server/internal/blockchain/indexer.go:655-657 | the swap loop leaves the list reversed |
| Indexer.FindCut | server/internal/blockchain/indexer.go:629-635 | the first signature of the page at or below the checkpoint, or -1 |
| Indexer.Indexer.FetchNewSignatures | server/internal/blockchain/indexer.go:610-659 | exactly the signatures between the frontier or tip and the checkpoint, oldest first, and whether the checkpoint was reached; an error exactly when paging ends above the checkpoint or a call fails |
| Indexer.Indexer.IngestLog | server/internal/blockchain/indexer.go:482-554 | after all lines the store holds the transaction's events besides what it held; after a failure, some of them and nothing else; whatever is new is an event the program emitted, under its line's position, at the transaction's slot |
| Indexer.Indexer.IngestTransaction | server/internal/blockchain/indexer.go:470-556 | the same, with a failed transaction contributing nothing |
| Indexer.Indexer.CloseBackfill | server/internal/blockchain/indexer.go:313-318 | the recorded tip becomes the prefix and the frontier is cleared |
| Indexer.Indexer.IngestScan | server/internal/blockchain/indexer.go:243-272 | events stored and checkpoint advanced up to the position reached, whether the scan ends or is cut short |
| Indexer.Indexer.Settle | server/internal/blockchain/indexer.go:274-306 | the row that ends a poll: tip, closed backfill, or frontier |
| Indexer.Indexer.PollProgram | server/internal/blockchain/indexer.go:159-307 | an error-free poll leaves the state the specification computes; every other end leaves one of its partial states, and needs a failed call or a node that cannot serve the gap |
| IndexerModel.TxEventsHold | server/internal/blockchain/indexer.go:530-553 | a transaction's events are exactly the program's data lines that decode, of a transaction that took effect, filed under its signature and the line's position, at its slot |
| IndexerSafety.BoundaryIsPrefix | server/internal/blockchain/indexer.go:629-640 | when the checkpoint ends its slot, the cut finds exactly the prefix |
| IndexerSafety.ScannedKey | server/internal/blockchain/indexer.go:243-262 | a scan stores exactly the wanted events of the transactions it covers |
| IndexerSafety.PollKeepsInv | server/internal/blockchain/indexer.go:159-307 | an error-free poll keeps the invariant exactly when it skips nothing that is due and missing |
| IndexerSafety.EffectKeepsInv | server/internal/blockchain/indexer.go:159-318 | so does a poll that fails at any call |
| IndexerSafety.WhenNothingSkipped | server/internal/blockchain/indexer.go:610-659 | nothing is skipped when the checkpoint ends its slot and the node serves what the poll depends on |
| IndexerSafety.GrowthKeepsInv | server/internal/blockchain/fake_source.go:48-55 | a growing history keeps the invariant |
| IndexerSafety.GapFree | server/internal/blockchain/indexer.go:159-318 | over every run of growth, pruning, successful and failing polls, where slots strictly increase or checkpoints end their slot and the node serves what a poll depends on, all due events at or below the checkpoint and inside an open backfill are stored, and only genuine ones are |
| IndexerSafety.LostStaysLost | server/internal/blockchain/indexer.go:629-640 | what is missing below the checkpoint is never filled in by a later poll |
| IndexerSafety.RowOnlyGrows | server/internal/blockchain/checkpoint.go:52-91 | no poll moves the prefix back |
| IndexerSafety.SplitSlotIsLost | server/internal/blockchain/indexer.go:629-640 | a checkpoint inside a slot loses the rest of the slot |
| IndexerSafety.SplitSlotRun | server/internal/blockchain/indexer.go:263-268 | a run that ends so: a batch checkpoint inside a slot, a failed call, a poll that succeeds |
| IndexerSafety.PrunedFrontierIsLost | server/internal/blockchain/indexer.go:211-213 | an empty first page while backfilling loses what the node dropped |
| IndexerSafety.PrunedFrontierRun | server/internal/blockchain/indexer.go:614-626 | two polls that end so, the node dropping all below the frontier between them |
| IndexerSafety.PrunedNeverAdvances | server/internal/blockchain/indexer.go:651-653 | a node whose history ends above the checkpoint never makes the checkpoint move; at most the frontier does |
| IndexerDrain.PollProgress | server/internal/blockchain/indexer.go:239-306 | an error-free poll of a complete node lowers what remains |
| IndexerDrain.TipIsOnePass | server/internal/blockchain/indexer.go:537-553 | at the tip with no gap open the store is that of one oldest-first pass |
| IndexerDrain.DrainsToTip | server/internal/blockchain/indexer.go:239-306 | as many polls as signatures remain reach the tip, clear the frontier and leave the one-pass store, whatever failed before |
| IndexerDrain.PollStoresOnlyDue | server/internal/blockchain/indexer.go:243-257 | however a poll ends, it stores nothing older than startSlot, if nothing older arrived after the first sync |
| IndexerDrain.RunThenDrain | server/internal/blockchain/indexer.go:159-318 | the same from any moment of any run, where nothing older than startSlot arrives after the first sync |
| IndexerDrain.RunThenDrainFromGenesis | server/internal/blockchain/indexer.go:159-318 | and with startSlot 0 from any moment of any run |
| IndexerDrain.HeartbeatKept | server/internal/blockchain/checkpoint.go:109-116 | the heartbeat is the last one or this poll's; a successful poll sets it |
| IndexerEvents.StoredIsEmitted | server/internal/blockchain/indexer.go:537-553 | at every moment of every run each stored event was emitted by the transaction it is filed under and has that transaction's slot |
| IndexerEvents.EmittedIsStored | server/internal/blockchain/indexer.go:159-318 | where slots are safe, everything emitted at or below the checkpoint's transaction, from startSlot on, is stored with its slot |
| IndexerEvents.DrainedIsExact | server/internal/blockchain/indexer.go:159-318 | once drained, from any moment of any run, a key is stored exactly when some transaction from startSlot on emitted an event under it, and what is stored is that event |
| IndexerEvents.PollWindow | server/internal/blockchain/indexer.go:610-659 | a poll observes at most 10,000 signatures, and no fewer when it did not come down to the checkpoint |
| IndexerEvents.VerdictOnIndexed | server/cmd/reindex/history.go:44-95 | for events that the indexer stored, an empty verdict over strictly increasing slots means that all of them are still served |
| Retention.PageBackTo | server/cmd/reindex/history.go:101-132 | reached, page cap or pruned, exactly as the served history within 20 pages says, and the lowest slot seen |
| Retention.OldestEventSlotByAddress | server/cmd/reindex/history.go:136-148 | the minimum stored slot of each address that has events |
| Retention.VerifyHistoryRetained | server/cmd/reindex/history.go:44-95 | names exactly the configured programs with a stored event that is not proven retained; fails only when listing or a call does |
| Retention.ReachedMeansServed | server/cmd/reindex/history.go:118-125 | seeing the target slot shows all of it served exactly when the pruning point does not split the slot |
| Retention.ProvenIsServed | server/cmd/reindex/history.go:44-95 | a proven event's signature is still served, unless the pruning point splits its slot |
| Retention.VerdictMeansServed | server/cmd/reindex/history.go:44-95 | when no program is named and slots strictly increase, every stored event of every configured program is still served |
| Retention.ProvenIsSeen | server/cmd/reindex/history.go:97-168 | proven means that a signature at or below the slot is among the newest 20 pages of 1000 |
| ShortVec.EncodeShortVecLen | server/internal/blockchain/tx.go:227-238 | the loop writes the length's base-128 digits |
| ShortVec.DecodeShortVecLen | server/internal/blockchain/tx.go:243-257 | value and bytes consumed, or an error on truncation or more than four bytes |
| ShortVec.EncodeIsDigits | server/internal/blockchain/tx.go:227-238 | the bytes are the digits to the base 128, low ones first, the high bit set on all but the last, which is zero for zero only |
ShortVec.DecodeInvertsEncode | server/internal/blockchain/tx.go:223-257 | decoding an encoded length gives it back and consumes exactly its bytes, precisely for lengths below 2^28; all others are errors |
| MessageTable.CollectAccounts | server/internal/blockchain/tx.go:94-126 | accounts in first-seen order with the flags collected |
| MessageTable.CollectedIsExact | server/internal/blockchain/tx.go:94-126 | each account once, with exactly the union of what its occurrences ask for |
| MessageTable.BuildTable | server/internal/blockchain/tx.go:128-169 | the four buckets, sorted, behind the fee payer |
| MessageTable.AscendingUnique | server/internal/blockchain/tx.go:216-221 | a sorted list of different keys is determined by its elements |
| MessageTable.TableIsExact | server/internal/blockchain/tx.go:94-181 | no duplicates, fee payer first, and the header's flags are exactly the privileges asked for |
| MessageTable.TableIsCanonical | server/internal/blockchain/tx.go:145-161 | the key table depends on who asks for what only, not on order |
| MessageTable.TableAscends | server/internal/blockchain/tx.go:150-171 | each of the four groups is in ascending order, the lower byte first at the first difference |
| MessageTable.AskedExactly | server/internal/blockchain/tx.go:94-132 | what is asked of an account, read off the instructions: to be there, to sign, to be written |
| Message.CompileLegacyMessage | server/internal/blockchain/tx.go:82-214 | the wire bytes, or an error on no instruction, a bad blockhash or too many accounts |
| Message.IndexKeys | server/internal/blockchain/tx.go:170-173 | each key's position |
| Message.WriteInstructions | server/internal/blockchain/tx.go:192-211 | program index, account indices and data of each instruction |
| Message.TableKnowsAll | server/internal/blockchain/tx.go:193-204 | no account an instruction refers to is missing, so that the internal errors cannot arise |
| Message.CompilesExactly | server/internal/blockchain/tx.go:82-181 | a message is compiled exactly for one or more instructions over at most 255 accounts and a blockhash of 32 bytes |
| Message.DecodeInvertsWire | server/internal/blockchain/tx.go:180-213 | the bytes decode to header, keys, blockhash and instructions exactly when every length fits the prefix |
| Message.CompilePreservesMeaning | server/internal/blockchain/tx.go:82-214 | decoding gives back the blockhash and, through the key table, each instruction's program, accounts in order with repeats, and data |
| Message.CompiledPrivilegesAreExact | server/internal/blockchain/tx.go:94-185 | read off the header bytes as the runtime does, every key is signer and writable exactly when some occurrence asked for it, the fee payer always |
| Message.FeePayerOfCompiled | server/internal/blockchain/tx.go:264-281 | the fee payer reads back from every compiled message |
| Message.SignableWhenSoleSigner | server/internal/blockchain/tx.go:303-336 | a compiled message can be signed by its fee payer exactly when no other account must sign |
| Message.SigningKeepsMessage | server/internal/blockchain/tx.go:327-333 | the bytes are a count of one, the signature over exactly the message, and the message unchanged |
| Message.SignedPreservesMeaning | server/internal/blockchain/tx.go:303-336 | read back, a compiled and signed transaction carries its fee payer's signature alone, over a message that decodes to the blockhash and the instructions compiled |
| StatusService.TransactionRepository.Create | server/internal/dal/memory/transaction.go:24-33 | a pending record is added, unless the call fails or the unique index refuses |
| StatusService.TransactionRepository.GetByIdempotencyKey | server/internal/dal/memory/transaction.go:46-56 | the first record of the key in whatever order the store visits them |
| StatusService.TransactionRepository.Update | server/internal/dal/memory/transaction.go:80-89 | the one record's status is replaced; an unknown record is an error |
| StatusService.Service.SetStatus | server/internal/compliance/status_service.go:139-291 | records, broadcasts and result of one call, whatever fails along it |
| StatusService.RecordsArePermanent | server/internal/dal/models/transaction.go:17-31 | records are never rewritten by later calls, so that Confirmed is terminal |
| StatusService.SuccessMeansAccepted | server/internal/compliance/status_service.go:245-273 | a call reports a broadcast, or leaves a Confirmed record, only when the node answered with the transaction's own signature; a Failed one only when it did not |
| StatusService.AttemptKeepsAccounted | server/internal/compliance/status_service.go:225-243 | every broadcast has a durable record of its own, made before it |
| StatusService.RetrySafeExactly | server/internal/compliance/status_service.go:140-148 | a call cannot broadcast over an attempt not recorded failed, exactly unless the store admits several records and the key has both a failed and an unfailed one |
| StatusService.LandsOnceExactly | server/internal/compliance/status_service.go:245-291 | a key can take effect again exactly when it has taken effect, has a failed record and the store admits several |
| StatusService.LatestLandsOnceExactly | server/internal/compliance/status_service.go:245-291 | where lookups return the latest record, exactly when that one is failed |
| StatusService.LandsTwice | server/internal/compliance/status_service.go:245-260 | a refused call whose transaction takes effect, and its retry, which does too |
| StatusService.LandsOnceOverRuns | server/internal/dal/models/transaction.go:25-31 | over every run with latest lookups, no key takes effect twice, if no refused broadcast took effect |
| StatusService.RepeatedBroadcast | server/internal/dal/memory/transaction.go:46-56 | three calls that broadcast twice successfully under one key |
| StatusService.LatestKeepsSingleLive | server/internal/compliance/status_service.go:140-148 | with lookups of the latest record, a broadcast happens only over failed records |
| StatusService.SingleLiveAttempt | server/internal/compliance/status_service.go:139-306 | over every sequence of calls with failures and crashes, at most one record of a key is not failed, if lookups return the latest; every broadcast has a record made before it |
| StatusService.UniqueIndexSendsOnce | server/internal/dal/mongodb/mongodb.go:92-98 | with the unique index a key is broadcast, and takes effect, at most once, ever |
| StatusService.UniqueIndexNeverRetries | server/internal/dal/mongodb/mongodb.go:92-98 | and a failed attempt is never retried: later calls are refused |
| StatusInterleaving.AloneIsAttempt | server/internal/compliance/status_service.go:139-273 | a call with nobody else at work is the call of the service |
| StatusInterleaving.InterleavedCallsSendOnce | server/internal/dal/mongodb/mongodb.go:92-98 | with the unique index no key is broadcast twice, however calls interleave |
| StatusInterleaving.InterleavedCallsSendTwice | server/internal/dal/memory/transaction.go:24-56 | without it, two interleaved calls under one key are both broadcast and both take effect |
| KycModel.SameKeyExactly | server/internal/compliance/webhook.go:307-312 | exactly when two identities share a key |
| KycModel.KeysIdentifyExactly | server/internal/compliance/webhook.go:307-312 | keys identify decisions exactly when no provider's name continues another's after the separator |
| KycModel.NewerIsLater | server/internal/dal/memory/kyc_event.go:146-154 | a later time is newer whatever the keys, and at equal times the greater key is |
| KycModel.ClaimIsByTime | server/internal/dal/memory/kyc_event.go:120-154 | a claim is won by every later decision, by no earlier one, and at the holder's time by a greater key |
| KycOutbox.ClaimKeeps | server/internal/dal/memory/kyc_event.go:120-129 | the compare-and-set moves a claim only up and only to a stored decision |
| KycOutbox.HolderIsClaim | server/internal/compliance/reconciler.go:83-90 | the decision with the claim's key is the claimed one |
| KycOutbox.StepKeeps | server/internal/compliance/reconciler.go:52-180 | every step of every party, wherever it stops, keeps the invariant |
| KycOutbox.RunKeeps | server/internal/compliance/webhook.go:209-305 | over every run, with keys that identify decisions and claims atomic or not, the invariant holds and claims only grow |
| KycOutbox.ClaimsNameStoredDecisions | server/internal/compliance/webhook.go:211-227 | a claim always names a decision stored for that address |
| KycOutbox.DecisionsReachTheChainInOrder | server/internal/compliance/reconciler.go:79-134 | SetStatus is never called for a decision after a newer one of the same address |
| KycOutbox.CallsFollowTime | server/internal/compliance/reconciler.go:79-134 | for one address the times of the decisions SetStatus is called for never fall, nor do the keys at one time |
| KycOutbox.ClaimTimesNeverFall | server/internal/dal/memory/kyc_event.go:111-129 | however a run goes on, the time of a claim never falls |
| KycOutbox.AppliedMeansConfirmed | server/internal/compliance/reconciler.go:138-180 | an applied event links a confirmed transaction made under its own idempotency key |
| KycInbox.NothingRecordedTwice | server/internal/dal/memory/kyc_event.go:53-68 | on every run, whatever the providers, no two rows have the same payload or the same provider and event id |
| KycInbox.DecisionsNeverChange | server/internal/dal/models/kyc_event.go:17-78 | however a run goes on, who a stored decision is about, what was decided, when and by whom stay as they were |
| KycNewest.LookIsRight | server/internal/compliance/webhook.go:284-299 | a decision whose claim was lost to one at or above it holds the claim or is strictly below it |
| KycNewest.NewestIsNeverSuperseded | server/internal/dal/memory/kyc_event.go:115-129 | where claims are atomic, the newest created decision of an address is never superseded, and holds the claim once settled |
| KycNewest.LatestIsNeverSuperseded | server/internal/compliance/webhook.go:211-256 | where claims are atomic, a decision later than every other of its address is never superseded, and holds the claim's key once settled |
| KycNewest.NewestIsLatest | server/internal/dal/memory/kyc_event.go:146-154 | newest means that no other of the address is later, nor has a greater key at the same time |
| KycNewest.LostOnlyWhenOvertaken | server/internal/dal/mongodb/kyc_event.go:73-90 | where they are not, the same for every decision that did not, having met no claim, come to insert one after an older decision had |
| KycNewest.NewerLosesTheRace | server/internal/dal/mongodb/kyc_event.go:82-86 | any two decisions delivered to an address without a claim can leave the newer superseded and the older holding the claim |
| KycNewest.NothingLostExactly | server/internal/dal/mongodb/kyc_event.go:64-90 | no run supersedes a newest decision exactly when claims are atomic |
| KycCollision.CollisionReorders | server/internal/compliance/webhook.go:307-312 | any two decisions of an address under one key can reach the chain newer first |
| KycCollision.OrderNeedsIdentifyingKeys | server/internal/dal/mongodb/mongodb.go:117-123 | with the index on the two fields, order holds on every run exactly when keys identify decisions |
| KycCollision.JoinedKeysRefuse | server/internal/dal/memory/kyc_event.go:53-68 | exactly when the in-memory store refuses a new decision as a replay |
| KycService.EventRepository.Create | server/internal/dal/memory/kyc_event.go:53-68 | the row is added unless its payload or its identity is recorded |
| KycService.EventRepository.Update | server/internal/dal/memory/kyc_event.go:82-91 | the whole row is replaced |
| KycService.EventRepository.ListPending | server/internal/dal/memory/kyc_event.go:93-109 | every pending row once and nothing else, ordered by time |
| KycService.EventRepository.ClaimLatestForAddress | server/internal/dal/memory/kyc_event.go:120-154 | the claim moves exactly when there is none, or this one is later, or at the same time has the greater key |
| KycService.EventRepository.CurrentClaimEventKey | server/internal/dal/memory/kyc_event.go:131-139 | the holder's key, or none |
| KycService.FinalizeClaim | server/internal/compliance/webhook.go:278-305 | after any number of successful calls, what the machine's task leaves; the result says who holds the claim and the row says so too |
| KycService.TakenExactly | server/internal/compliance/webhook.go:152-190 | exactly which payloads are well formed and timely, in seconds |
| KycService.DeliveryIsRecorded | server/internal/compliance/webhook.go:228-240 | what is stored of a delivery is its address, identity, time, payload hash and outcome, behind the rows there were |
| KycService.ProcessDecision | server/internal/compliance/webhook.go:137-265 | nothing is stored for a malformed, untimely, unowned or repeated delivery; otherwise the row is stored before the claim moves; uninterrupted, the verdict is relayed, replayed or stale as the claim and its holder say |
| KycService.DeliveryIsRun | server/internal/compliance/webhook.go:228-305 | a delivery that stores its row and comes any number of calls further is a run of the machine, whatever else is in flight |
| StatusMeaning.OutcomeKeepsText | server/internal/compliance/webhook.go:152-154 | exactly three status texts are taken, and each is stored as an outcome of the same text |
| StatusMeaning.StatusSurvives | server/internal/compliance/status.go:32-43 | a delivered text that is sent to the chain at all is shown again as the same text by the read model; the one that is not is "Pending" |
| KycReconciler.WebhookReconciler.ReconcileOne | server/internal/compliance/reconciler.go:66-101 | what handling one event leaves, wherever it fails |
| KycReconciler.WebhookReconciler.Submit | server/internal/compliance/reconciler.go:104-134 | SetStatus under the event's key, then the link |
| KycReconciler.WebhookReconciler.CheckSubmitted | server/internal/compliance/reconciler.go:138-180 | applied, retried or left alone as the transaction's status says |
| KycReconciler.HandleSteps | server/internal/compliance/reconciler.go:66-180 | handling one event is a run of the machine |
| KycReconciler.WebhookReconciler.Reconcile | server/internal/compliance/reconciler.go:52-64 | a pass handles a listing of all that is pending, one event after another whatever fails, and is a run of the machine |
| KycReconciler.HandleTouches | server/internal/compliance/reconciler.go:66-180 | handling an event changes its own row only, keeps the decision in it, and adds records under its key only |
| KycReconciler.PassIsRun | server/internal/compliance/reconciler.go:52-64 | whatever calls fail along it, a pass over any listing is a run of the machine, so that all the machine's theorems hold of it |
| KycDrain.AppliedWhateverTheLookups | server/internal/compliance/reconciler.go:52-180 | three or more passes apply the newest decision whatever lookups return, exactly unless its live link is pending or some record of its key makes a submission come to nothing |
| KycDrain.AppliedByLuckyLookups | server/internal/compliance/reconciler.go:52-180 | some lookups let them apply it, exactly unless its live link is pending or its key has such records only |
| KycDrain.NewestIsApplied | server/internal/compliance/reconciler.go:52-180 | both, from any moment of any run between passes, over whole passes in whatever order events are listed, without further failures |
| Limits.LimitDecoder.Walk | server/internal/auditpkg/limits.go:40-53 | the loop feeds every token to the stack machine |
| Limits.LimitDecoder.Handle | server/internal/auditpkg/limits.go:55-87 | one token's effect on depth and stack, or refusal |
| Limits.LimitDecoder.RecordElement | server/internal/auditpkg/limits.go:94-116 | keys, values and elements counted against the bounds |
| Limits.CheckSafeInteger | server/internal/auditpkg/limits.go:122-135 | integers beyond the safe range and non-numbers are refused |
| Limits.FeedValue | server/internal/auditpkg/limits.go:55-116 | at any point of a walk, a value is accepted exactly when it is within bounds, fits the depth left and is not one element too many |
| Limits.WalkIsDefinition | server/internal/auditpkg/limits.go:26-116 | a document passes exactly when it nests at most 32 deep and all strings, keys, numbers, arrays and objects are within bounds |
| Limits.SafeIntegers | server/internal/auditpkg/limits.go:11-14 | an integer literal passes exactly within [-(2^53-1), 2^53-1] |
| Limits.SafeLiterals | server/internal/auditpkg/limits.go:122-135 | over a literal's parts: any with a fraction or an exponent passes, any other exactly in the safe range |
| Limits.LimitsAreWritten | server/internal/auditpkg/canonical.go:20-27 | the bounds on strings, keys, arrays and objects in numbers |
| JsonPointer.ResolvePointer | server/internal/assets/schema_guard.go:189-208 | the loop follows the unescaped segments |
| JsonPointer.PointerResolves | server/internal/assets/schema_guard.go:187-208 | a pointer escaped as RFC 6901 section 3 says resolves to the value under its keys, whatever characters they hold |
| SchemaGuard.GuardEndsExactly | server/internal/assets/schema_guard.go:56-185 | a verdict is reached when no walk comes back to a schema under the same references, and, where everything reached is good, exactly then |
| SchemaDialect.GuardIsExact | server/internal/assets/schema_guard.go:78-185 | a document is accepted exactly when no path of schemas in it, through properties, items, additionalProperties, $defs and sole references, comes back, and everything reached is in the dialect, keyword by keyword, over at most 32 references in a row |
| SchemaDialect.AcceptanceIsSound | server/internal/assets/schema_guard.go:78-185 | in an accepted document every schema reached by any such path is in the dialect, and no path comes back to a schema |
| SchemaDialect.GuardDecidesDialect | server/internal/assets/schema_guard.go:62-76 | where no path comes back, every other document is rejected |
| SchemaDialect.LinksAreChildren | server/internal/assets/schema_guard.go:120-161 | the schemas the walk goes to next are the ones those keywords hold |
| SchemaGuard.LinkedIsExact | server/internal/assets/schema_guard.go:87-185 | a document is rejected only when something reached is not good |
| SchemaGuard.GuardTerminates | server/internal/assets/schema_guard.go:56-60 | in particular, the guard decides every document where no reference points at a schema with "$defs" in it |
| SchemaGuard.GuardDecides | server/internal/assets/schema_guard.go:62-76 | where no walk comes back, the verdict is acceptance exactly when everything reached is good |
| SchemaGuard.GuardMayNeverEnd | server/internal/assets/schema_guard.go:149-161 | a document on which no depth of walking reaches a verdict |
| SchemaGuard.OrderDecides | server/internal/assets/schema_guard.go:149-161 | a document with a bad schema that is rejected or walked for ever, as its members are visited |
| ComplianceReplay.BuildStatuses | server/internal/compliance/projector.go:31-69 | sorting and last-wins gives each account the entry of its greatest event: one that no other of the account is after in block, then log index, then hash |
| ComplianceReplay.ReplayIsMaximum | server/internal/compliance/projector.go:38-67 | the last of the sorted events is the greatest, found without sorting |
| ComplianceReplay.LatestIsGreatest | server/internal/compliance/projector.go:23-30 | no event of the account comes after it |
| ComplianceReplay.LatestIsLast | server/internal/compliance/projector.go:37-45 | no event of the account has a greater block, nor in that block a greater log index, nor at that index a later hash |
| ComplianceReplay.ReplayIgnoresOrder | server/internal/compliance/projector.go:23-30 | the listing order does not matter when keys are distinct |
| ComplianceReplay.AdaptStatusEvents | server/internal/compliance/reconcile.go:92-112 | only the two fields change shape |
| ComplianceReplay.DecodedValuesSurvive | server/internal/compliance/projector.go:76-117 | stored statuses and expiries are read back as on chain, expiries above 2^63 - 1 as none |
| ComplianceReplay.InvestorRepository.Reconcile | server/internal/compliance/reconcile.go:40-85 | each account has its old record or its target one; on success all have the target one |
| ComplianceReplay.ReadModelIsReplay | server/internal/compliance/reconcile.go:28-85 | status and expiry are those of the greatest event or none, and ownership is kept |
| ComplianceReplay.ReadModelIsLatest | server/internal/compliance/reconcile.go:28-85 | after a reconciliation an account shows, as Allowed for 1 and Blocked for 2, the value of an event that no other of the account is after in block, log index and hash |
| ComplianceReplay.ReconcileIsIdempotent | server/internal/compliance/reconcile.go:28-36 | a second run changes nothing |
| CanonicalQuery.Canonical | server/internal/auth/idempotency.go:229-253 | the loop renders sorted keys with their sorted values |
| CanonicalQuery.CanonicalIsNormalForm | server/internal/auth/idempotency.go:222-228 | equal strings exactly for the same keys with the same values equally often |
| CanonicalQuery.CanonicalIgnoresOrderOnly | server/internal/auth/idempotency.go:222-228 | equal strings exactly when one request's parameters rearrange the other's |
| CanonicalQuery.CanonicalReads | server/internal/auth/idempotency.go:229-253 | cut at "&", one group a key in ascending order; cut at "=", the key and its values in order |
| Pricing.CeilIsExact | investor-web/src/lib/wallet.ts:230-234 | the rounded-up quotient is exact for products not negative, and for negative ones exactly when one above a multiple |
| Pricing.FloorIsExact | investor-web/src/lib/wallet.ts:236-238 | the rounded-down quotient is exact for products not negative, and for negative ones exactly when nothing is rounded |
| Pricing.QuoteIsExact | investor-web/src/lib/wallet.ts:240-256 | a quote is the product over a one with as many zeros as the token has decimals, rounded up or down |
| Pricing.WholeTokens | investor-web/src/lib/wallet.ts:240-256 | whole tokens are quoted at their price, either way |
| Pricing.SplitPurchase | investor-web/src/lib/wallet.ts:246-256 | buying in n parts costs at least the one quote and at most n - 1 more |
| Pricing.SplitRedemption | investor-web/src/lib/wallet.ts:246-256 | redeeming in n parts brings at most the one quote and at least n - 1 less |
| Pricing.NoRoundTripProfit | investor-web/src/lib/wallet.ts:240-256 | bought and redeemed in any parts, an amount never brings more than it cost |
| Pricing.SlippageBrackets | investor-web/src/lib/slippage.ts:14-31 | the bounds are the exact ceiling and floor at the capped tolerance and bracket the amount, for every amount not negative, and for negative ones exactly in the cases listed |
| Pricing.SlippageIsMonotone | investor-web/src/lib/slippage.ts:14-31 | a larger tolerance never narrows them, and for negative amounts never widens them |
| Pricing.ClampIsNearest | investor-web/src/lib/slippage.ts:18-28 | whole basis points count as they are up to the cap, others as the nearest whole number |
| Pricing.SlippageAtWholePoints | investor-web/src/lib/slippage.ts:14-31 | at n basis points the bounds are the exact ceiling and floor of the amount and n ten-thousandths more or less |

## Left out

- The loop of `Poll` over programs, its error joining, the chain tip (`GetSlot`), the genesis check and the silent-poll warnings: programs do not share state.
- Chain id and program address in event and checkpoint keys: everything is about one program of one chain. `UpdatedAt`, `IndexedAt` and `CreatedAt` timestamps.
- A log the node truncates.
- A frontier signature the node no longer knows: such a poll is not described beyond its failing or leaving everything as it was.
- base64, ed25519, SHA-256, URL escaping and reading base58: parameters, injective where a theorem needs it. The base64 of a signed transaction.
- HMAC verification, JSON parsing, the HTTP and RPC clients and MongoDB: their outcomes are parameters or failures.
- The wording of the retention check's report, and a `minSeen` sentinel for slots of 2^64 - 1.
- `sort.Slice`, `sort.SliceStable` and `sort.Strings` are one stable sort on values (`Sorting.Sort`), so that sorting in place is not captured.
- SetStatus is one step of the outbox machine; `StatusInterleaving` takes it apart without the outbox. The transaction's contents, addresses and hashes.
- A reconciler or status service without a transaction store or a signer.
- KycOutbox.DecisionsReachTheChainInOrder: is about the calls the reconciler makes, because other callers of SetStatus carry no decision to order.
- KycOutbox.RunKeeps: lets the reconciler list pending events in any order and as often as it likes, which covers the order by time that `KycService.EventRepository.ListPending` gives.
- StatusService.SingleLiveAttempt: assumes lookups of the latest record, because with the stores' own lookups it is false; `RetrySafeExactly` says when it holds.
- Retention.ProvenIsServed: has the split-slot exception, because a node pruned inside the oldest stored slot passes the check.
- KycDrain.NewestIsApplied: is about passes with no delivery at work between them, because a decision delivered meanwhile may be newer.
- SchemaGuard.OrderDecides: is one document, because for documents that hold a bad schema no condition over all orders of visiting their members is stated.
- IndexerDrain.DrainsToTip: needs a history that has stopped growing, a node that serves all of it, and nothing older than startSlot arriving after the first sync.
- Floating-point event fields (`float64`), which the indexer never writes; `Number.NaN` and decimal strings in slippage.
- Duplicate JSON keys (a decoded object has the last), and token-level JSON syntax errors.
- The response recorder and the middleware around the canonical query.
