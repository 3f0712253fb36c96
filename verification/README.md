# KyPasswords: a Dafny model of its state machines

This project models the parts of KyPasswords, a self-hosted password vault, whose guarantees span
several functions, and proves those guarantees over every input, every run and every interleaving.

| modules | what they model |
|---|---|
| `AuditChain`, `AuditCodec`, `AuditWitness`, `AuditStore`, `AuditBoot`, `AuditRuns`, `AuditRecovery`, `AuditIncidents` | the hash-chained audit log, its external mark, torn writes, kills, power losses and boot |
| `HistoryThinning`, `VaultPaths`, `VaultStore` | the server's compare-and-swap vault store, where its files go, and the thinning of its history |
| `SaveQueue`, `VaultSystem` | the client's save queue, and any number of them against one server |
| `LogoutLog`, `Pairings`, `Sessions`, `SessionRuns` | sessions against back-channel logout (section 2.7 of OpenID Connect Back-Channel Logout 1.0), device pairing and deprovisioning |
| `Collections`, `MapSums`, `AuditBudget`, `BudgetRuns` | the budget that bounds audit records of unauthenticated callers |
| `CsvRecords`, `CsvRoundTrip`, `FolderPaths`, `CsvImport` | reading CSV (section 2 of RFC 4180) and importing it into a vault's folder tree |
| `UserStore`, `DirectorySync` | the user table, its indexes, and the directory events that drive it |
| `Attachments`, `AttachmentVault`, `AttachmentRuns` | what attachments cost across entries and their history |

Code that works by changing things in place is a class or a loop here too, each method proved
against a function of the old state; the lemmas are about those functions and about runs of them.
What the environment chooses - where a write is cut, which call fails, what a clock reads, what a
random generator draws - is a parameter, so every theorem holds for all of its choices.
`dafny verify dfyconfig.toml` checks the whole project.

## How the main models are built

**Audit log.** The log is bytes. The JSON text of a record is abstract: `Codec.Lawful` states what
the code relies on (a record's encoding holds no newline, is recognised at its own last byte and
not before, and the decoder skips the newline between records), and `AuditWitness` exhibits a codec
that keeps those laws. Bytes no encoder wrote are arbitrary. The keyed digest is symbolic: a digest
is the term it authenticates. A live machine has the files and the memory; beside them stand the
bytes no power loss can take, the whole records unflushed behind them, and the renames of the mark
a power loss may undo. A kill cuts the record being written at any byte and leaves everything that
was written where it is; the next process inherits what was not flushed. A power loss also takes any
end of what is unflushed, and brings back any earlier mark not yet known to be durable. A restart
flushes the log only if it has to repair it. Renames of the mark may settle at any time, and then come
back no more.

**Vault.** `VaultStore` is the store of one user. `VaultSystem` puts any number of queues, restores
and lost answers around a ledger that grows as the store's does; a content there is the set of
edits it holds. A session may open at any version, an upload holds whatever the vault held at some
moment of its export, and a restore may bring back any content. `SaveQueue` cuts the asynchronous `save` at its awaits.

**Sessions.** A login is two events, the checks and the insertion, under the session lock; its
clock reading is any earlier one; a redemption reads its clock under the pairings' own lock. A
deactivation is three: the directory, the pairings, the sessions. The clock never goes back, and tokens and secrets are never drawn twice.

**Directory, attachments and import.** Entries and groups are plain records. Case folding and
trimming are parameters; the import needs a few laws of them (`Text.Lawful`).

## Where the code falls short of a plain reading, and exactly when

- A log with records and a mark that counts none is refused at boot, so a power loss before the
  first mark is durable is not recoverable (`TwoWaysToLoseTheLog`, `FirstMarkCanBeMissed`).
- A process killed between a record's write and its flush leaves a record that the next start adopts
  and marks without flushing it. If the power goes before the next append, the mark can be kept and the
  record lost, and boot is refused as truncated for good, although no flush reported an error
  (`AdoptedRecordCanBeLost`). `TruncationIsExposure`, `ExposureBegins` and `ExposureEnds` say exactly
  when this can happen, and `OnlyAdoptionTruncates` that nothing else does it.
- A write error is rolled back; a flush or close error is not. The next append that lands in the same
  process puts a second record at one position and no later boot succeeds
  (`AppendAfterFlushErrorForksForGood`). `RecoveryIsExact` gives the condition on the files.
- The retired log format joins a record's fields with bars. A record with a bar moved between two fields has
  the logged one's digest, and a conversion takes it over (`ConversionIsExact`, `ShiftedBarConverts`);
  fields without bars are told apart (`JoinedTellsApart`).
- A conversion of the retired log format interrupted between the two files is refused for good
  (`InterruptedConversionIsRefused`).
- A rejected upload's file name contains the device's name, and the path is cleaned after joining. It
  is kept as a conflict exactly when the cleaned path stays in the conflicts directory and the name is
  at most 255 bytes of UTF-8, and its ID opens it exactly when the device name also holds no separator, backslash
  or zero byte (`SaveVault`). A name that goes up and down again puts it among the archives, where it can
  be restored and thinned (`RejectedAmongArchives`).
- A group whose case-folded name is blank counts for nothing in the import's paths while nothing above it
  is named (`PathIsTrail`).
- After `discard`, `recoverUnsaved` still changes the queue's state (`DiscardedQueueIsSilent`).
- A PIN drawn while a pairing that can still be redeemed holds it, the same user's or another's, leaves
  that pairing's secret alive after its user's pairings are cancelled (`CreationKeepsPairs`, `CancelMissesExactly`, `SharedPinOutlivesCancel`).
- The comment at `frontend/src/lib/csvImport.ts:54` says the delimiter comes from the first non-empty
  line; the code takes the first line, and so does the model. A leading byte-order mark in the
  first field is taken for the file's own (`RoundTrip`).
- An account created or linked with an empty subject breaks the subject index (`CreationKeepsIndex`,
  `LinkKeepsIndex`).
- Only additions are guarded by the attachment budget. The checkpoint of an edit or a removal and a
  restore write inline files out again, and a copy recovered from another vault brings in whatever it
  has; each can take a vault past the budget (`EditCanExceed`, `RemovalCanExceed`,
  `RestoreCanExceed`, `RecoveryCanExceed`). What every change costs is exact (`StepCost`), the budget
  holds throughout a run exactly when every change of it is affordable (`BudgetIsExact`), and in a
  vault with nothing inline exactly when its recovered copies fit (`BudgetWithoutInline`).
- A link, role or activation change that cannot be saved stays in memory and is undone by a restart
  (`RestartForgetsUnsaved`); a tombstone that rests on one goes with it (`TombstoneOutlivesUpdates`).
- Importing into a folder inside the recycle bin is not idempotent, because duplicates are looked for
  in the live vault only (`ImportTwice`).

## Model

| member | source | states |
|---|---|---|
| AuditChain.ChainHashInjective | internal/audit/audit.go:58-66 | two histories with one digest are the same history, so a mark pins every tuple under it |
| AuditChain.ChainedRunExtends | internal/audit/audit.go:363-396 | records past a mark that pass the position, digest and predecessor checks are exactly the minted continuation of the marked history |
| AuditChain.MintIsChained | internal/audit/audit.go:363-396 | the converse: an honest log passes those checks from every position |
| AuditChain.ChainedStep | internal/audit/audit.go:363-396 | the checks over a tail are those of its first record and those of the rest from that record's digest |
| AuditChain.MintStep | internal/audit/audit.go:640-679 | appending to an honest log adds the record built on the head and changes no earlier one |
| AuditBoot.VerificationIsExact | internal/audit/audit.go:771-815 | verifying the bytes of a log against the mark of a true history succeeds if and only if they decode, to their end, to that history's honest log |
| AuditBoot.HonestLogVerifies | internal/audit/audit.go:771-815 | a clean honest log verifies against its mark |
| AuditCodec.ReadAll | internal/audit/audit.go:404-447 | the loop returns the decoded list and the offset just past the last decoded record |
| AuditCodec.NothingPastEnd | internal/audit/audit.go:404-447 | it stops only where nothing more decodes |
| AuditCodec.ReadAppend | internal/audit/audit.go:404-447 | reading is compositional: decoded records stay decoded whatever is written behind them |
| AuditCodec.AppendLine | internal/audit/audit.go:675-691 | a line appended to a clean file leaves a clean file holding the old list and the record |
| AuditCodec.HoldsNewline | internal/audit/audit.go:507-521 | the chunked scan answers whether any byte from the offset on is a newline |
| AuditCodec.TrimTornTail | internal/audit/audit.go:452-502 | the method's result on the bytes is the specified repair, or the refusal |
| AuditCodec.TrimIsExact | internal/audit/audit.go:449-502 | for any bytes: refused exactly when a newline lies among the unread bytes; otherwise only newline-free bytes past the last decodable record go, and the decoded list stays |
| AuditCodec.RepairedFileTakesAppends | internal/audit/audit.go:449-502 | after a repair the next append decodes as the old list and then that record |
| AuditCodec.CutLine | internal/audit/audit.go:675-691 | a write cut at any byte decodes to nothing and holds no newline, or holds the whole record |
| AuditCodec.TornAppend | internal/audit/audit.go:675-691 | behind a clean file, a cut append reads as all or nothing and its repair is never refused |
| AuditWitness.EncodeIsInjective | internal/audit/audit.go:404-447 | in a concrete encoding, no bytes spell two records |
| AuditWitness.LawsCanBeKept | internal/audit/audit.go:404-447 | a concrete codec keeps every law the model asks of the JSON stream, so those laws are consistent |
| AuditStore.Store.PlaceTailOf | internal/audit/audit.go:338-399 | the loop returns what the specified placement returns, with the same refusal |
| AuditStore.PlaceFromAccepts | internal/audit/audit.go:363-396 | placement raises no refusal exactly when every record past the mark is in place, verifies and follows its predecessor |
| AuditStore.PlaceTailAcceptsContinuations | internal/audit/audit.go:338-399 | against the mark of a true history exactly two kinds of log are placed: one of the marked length, and one that continues the history with its own minted records; the anchor returned is that of the continuation |
| AuditStore.Store.LegacyVerifies | internal/audit/audit.go:593-605 | true exactly when every record of the retired format is in place, follows its predecessor and carries its digest |
| AuditStore.Store.Converge | internal/audit/audit.go:547-591 | rewrites exactly the logs that qualify, into the same tuples chained from genesis, the log before the mark |
| AuditStore.Replay | internal/audit/audit.go:568-580 | re-chaining a list of tuples gives the honest log of that history and its mark |
| AuditStore.Store.Open | internal/audit/audit.go:265-328 | boot ends in the state and with the refusal that the specification `Boot` gives, file by file |
| AuditStore.Store.Log | internal/audit/audit.go:640-733 | an append is answered as logged exactly when its line is behind the old log, the head is its record and no mark write was left failing; with a mark error exactly when the record is there and the mark write failed; and with an append error exactly when the write or the flush failed, and then neither head, anchor nor mark has moved and a failed write has been truncated back |
| AuditBoot.BootIsSound | internal/audit/audit.go:338-399 | for arbitrary log bytes: with the mark of a true history, boot coming up resumes at the digest of that history extended by exactly the records found past it, each minted at its own place |
| AuditBoot.ShortLogIsRefused | internal/audit/audit.go:340-353 | boot finds a log truncated if and only if it holds fewer records than its mark counts, whatever they are, and then leaves both files alone |
| AuditBoot.MintedLogBoots | internal/audit/audit.go:265-328 | what boot does, case by case, on an honest log with the mark of any of its prefixes |
| AuditBoot.MisplacedLogIsRefused | internal/audit/audit.go:363-396 | a log past its mark whose last record claims an earlier position is refused and left alone |
| AuditBoot.LegacyLogVerifies | internal/audit/audit.go:593-605 | the retired format's honest log passes its own verification and keeps its tuples |
| AuditBoot.ConversionIsExact | internal/audit/audit.go:547-565 | against the mark of an honest log in the retired format exactly those logs are converted whose records, joined, read as its tuples do, in place and under their digests |
| AuditBoot.JoinedTellsApart | internal/audit/audit.go:156-163 | fields without a bar are told apart by their joined text |
| AuditBoot.ShiftedBarConverts | internal/audit/audit.go:156-163 | fields with a bar are not: a record with a bar moved between two of them is converted in place of the logged one |
| AuditBoot.ConversionKeepsTheHistory | internal/audit/audit.go:547-591 | conversion keeps every tuple in its place, the converted log verifies whole against its mark, and boot comes up on it |
| AuditBoot.InterruptedConversionIsRefused | internal/audit/audit.go:581-587 | stopped between the rewritten log and its mark, no boot accepts the pair |
| AuditRecovery.RecoveryIsExact | internal/audit/audit.go:265-328 | after any run of appends failing in any way, kills and power losses at any byte, and restarts, boot comes up if and only if the log is no shorter than its mark and is empty, or has a mark that counts something and a last record that claims its own position; coming up, the log extends everything counted by at most the record being written, holds every acknowledged record in its place, and head, anchor and mark are its digest |
| AuditRecovery.TwoWaysToLoseTheLog | internal/audit/audit.go:338-361 | while no flush reports an error, boot is refused if and only if the log has records and the mark counts none, or the mark counts more than the log has; the second never happens if no restart adopted an unflushed record |
| AuditRecovery.TruncationIsExposure | internal/audit/audit.go:695-709 | a power loss can leave a log that boot finds truncated if and only if some mark it may leave counts more records than are durable |
| AuditRecovery.ExposureBegins | internal/audit/audit.go:321-325 | that state begins exactly with the restart of a killed process that reads a record nobody flushed, repairs nothing and marks it |
| AuditRecovery.ExposureEnds | internal/audit/audit.go:476-478 | and ends exactly with the next append that is flushed, a restart that repairs the log and so flushes it, or the power loss |
| AuditRecovery.OnlyAdoptionTruncates | internal/audit/audit.go:338-353 | whatever else fails, a run without such a restart never leaves a mark that counts more than the log has |
| AuditRecovery.ExposedLogCanBeLost | internal/audit/audit.go:338-353 | in any run that reaches that state, one power loss ends the log: every boot after it is refused as truncated, whatever happens next |
| AuditRecovery.MarkedLogAlwaysBoots | internal/audit/audit.go:265-328 | once every mark a power loss may bring back counts a record, then after any further torn writes, failed marks, kills, power losses and restarts, with no flush error and no adoption, boot comes up and recovers every acknowledged record in its place |
| AuditIncidents.FirstMarkSettles | internal/audit/audit.go:207-238 | one append whose mark has settled is enough to be there |
| AuditIncidents.AdoptedRecordCanBeLost | internal/audit/audit.go:680-703 | the shortest such run: no call and no flush fails, a kill between the write and the flush, a restart, a power loss |
| AuditIncidents.FirstMarkCanBeMissed | internal/audit/audit.go:356-361 | a power loss after the first acknowledged append can lose its mark, and boot is refused |
| AuditIncidents.FlushErrorLeavesARecordBehind | internal/audit/audit.go:703-709 | one flush error leaves a whole record behind the head |
| AuditRecovery.AppendAfterFlushErrorForksForGood | internal/audit/audit.go:703-709 | a flush error is not rolled back: one later append that lands puts two records at one position, and no boot ever succeeds again whatever happens next |
| AuditRecovery.SingleChainWhileRunning | internal/audit/audit.go:640-733 | while running, the log is the honest log of what was counted, the in-memory head is its last record, the mark on disk is that of a prefix and never counts more than the log, and verifying the log against the anchor succeeds |
| AuditRecovery.StepKeepsOneChain | internal/audit/audit.go:640-733 | each step keeps that, and the anchor's count never decreases between live states |
| AuditRuns.WreckReads | internal/audit/audit.go:675-709 | what a power loss leaves reads as the durable records, the counted ones it spared, then some that were being written, and its tail is repairable |
| AuditRuns.LossKeepsSound | internal/audit/audit.go:640-733 | a power loss leaves the honest log of a prefix that holds every acknowledged record, followed at most by records that were being written |
| AuditRuns.KillReads | internal/audit/audit.go:675-709 | a kill at any byte of a write leaves the log as it was, or with the whole record, and a tail boot can repair |
| AuditRuns.EveryCutHappens | internal/audit/audit.go:675-691 | a kill and a power loss are modelled at every byte of any record being written |
| AuditRuns.RestartKeepsSound | internal/audit/audit.go:265-328 | a restart after either ends in a sound machine, or leaves the files as they were |
| AuditRuns.LogForks | internal/audit/audit.go:703-733 | an append that lands behind an unflushed record leaves two records at one position |
| HistoryThinning.SeparationsTelescope | internal/vault/vault.go:621-638 | a common lower bound on the neighbour separations adds up to at most twice the span |
| HistoryThinning.LeastIsSmall | internal/vault/vault.go:621-638 | among more than a hundred snapshots the least separation is at most 2/99 of the span |
| HistoryThinning.RemovalCovers | internal/vault/vault.go:621-638 | removing the least-separated interior snapshot keeps every gap either original or at most 2/99 of the span |
| HistoryThinning.LeastSeparated | internal/vault/vault.go:623-634 | the inner loop finds an interior snapshot whose neighbours are closest together, the first of them |
| HistoryThinning.Thin | internal/vault/vault.go:621-638 | the loop ends with min(n, 100) snapshots, newest and oldest among them, every gap original or at most 2/99 of the span |
| HistoryThinning.Ordered | internal/vault/vault.go:599-620 | the listing comes newest first, each archive once |
| VaultPaths.ConflictLeaf | internal/vault/vault.go:357-358 | the last piece of a conflict's path always ends the way conflict files end, whatever separators the device's name holds |
| VaultPaths.PlainConflict | internal/vault/vault.go:357-358 | a device name without a separator keeps the file in the conflicts directory under its whole name |
| VaultPaths.ConflictAmongArchives | internal/vault/vault.go:357-358 | a device name that goes up and down again puts the file in the history directory |
| VaultPaths.ConflictLeafIsNoArchive | internal/vault/vault.go:357-373 | wherever it lands, a rejected upload never takes the name of an archive |
| VaultPaths.ArchiveFilesDiffer | internal/vault/vault.go:370-373 | archive names are equal only for the same second, version and kind |
| VaultPaths.JoinedIsLeaf | internal/vault/vault.go:358-358 | joining a name and cleaning it gives the folder its earlier pieces walk to and its last piece |
| VaultStore.Vault.SaveVault | internal/vault/vault.go:337-418 | accepts exactly an upload against the current version, raising it by one with matching checksum, size and author, the replaced content joining the history, from which only expiry and thinning take; any other upload leaves the current version alone and becomes a conflict if and only if its path stays in the conflicts directory and its name fits, an archive if and only if it leads to the history; the ID it is answered with opens it if and only if the device name is plain and the file name takes at most 255 bytes in UTF-8 |
| VaultStore.Vault.Reject | internal/vault/vault.go:355-366 | where a rejected upload goes, and exactly when its ID leads to it |
| VaultStore.WhatIsPlain | internal/vault/vault.go:560-562 | printable device names without slashes are plain, and fit up to 255 characters |
| VaultStore.Vault.RejectedAmongArchives | internal/vault/vault.go:357-359 | the upload that lands in the history: it is archived under its last piece and no conflict is kept |
| VaultStore.StrayIsAccounted | internal/vault/vault.go:357-359 | such an archive takes no other archive's place |
| VaultStore.Vault.RestoreHistory | internal/vault/vault.go:467-519 | makes whatever file the ID leads to current as a new version, keeping envelopes and archiving what it replaces; an ID that leads to none changes nothing |
| VaultStore.Vault.RestoringAnArchive | internal/vault/vault.go:471-475 | the ID of an archive the store made leads to exactly the version it was made of |
| VaultStore.Vault.Replace | internal/vault/vault.go:383-411 | installs a content as the next version over an archived current one, and keeps the store's invariant |
| VaultStore.Vault.ArchiveCurrent | internal/vault/vault.go:376-391 | the current content is archived under an ID no archive, present or pruned, has used; what is accounted for stays so |
| VaultStore.ReplacedIsAccounted | internal/vault/vault.go:376-411 | after a replacement every accepted content is current, or archived under an ID of its own version, or was pruned |
| VaultStore.PrunedIsAccounted | internal/vault/vault.go:599-639 | pruning keeps that account and moves what it drops into the pruned set |
| VaultStore.Vault.SaveEnvelopes | internal/vault/vault.go:242-264 | wrapped keys and the update time change, the ciphertext and its version do not |
| VaultStore.Vault.DiscardConflict | internal/vault/vault.go:560-596 | an ID that is a plain name removes its conflict and nothing else; any other is not found |
| VaultStore.Vault.Prune | internal/vault/vault.go:599-639 | only archives change, and only by going: expiry, then thinning |
| VaultStore.PruneOldHistory | internal/vault/vault.go:599-639 | what is left of the archives is expiry and thinning of what was there, contents untouched |
| VaultStore.PruningKeepsTheEnds | internal/vault/vault.go:599-639 | nothing expired stays, and every fresh archive that goes lies between a newer and an older one that stay |
| VaultStore.Vault.Snapshot | internal/vault/vault.go:144-156 | the pair check of a capture never fails on a store kept by these operations |
| SaveQueue.NoEditIsStranded | frontend/src/lib/vaultSave.ts:79-113 | in every run, an unconfirmed edit of a live queue is being uploaded, waits for a timer, or the state is an error; a saved state has no unconfirmed edit |
| SaveQueue.ConsistentRuns | frontend/src/lib/vaultSave.ts:29-113 | every segment between awaits keeps the queue's invariant |
| SaveQueue.DiscardIsFinal | frontend/src/lib/vaultSave.ts:70-77 | after discard no upload starts, no timer is armed, nothing is confirmed, and without a recovered draft the state never changes |
| SaveQueue.DiscardedQueueIsSilent | frontend/src/lib/vaultSave.ts:55-58 | a discarded queue changes its state if and only if a draft is recovered into it |
| SaveQueue.RetryStartsAnUpload | frontend/src/lib/vaultSave.ts:89-96 | in a live, idle queue with an unconfirmed edit a retry starts an upload of the latest revision, whatever the state |
| SaveQueue.ConfirmedMovesOn | frontend/src/lib/vaultSave.ts:99-103 | a confirming answer ends in the saved state if nothing changed meanwhile, and otherwise in a round for the latest revision |
| SaveQueue.EveryEditCanBeSaved | frontend/src/lib/vaultSave.ts:89-113 | from any live state a run can reach, a retry and two settled rounds at most end in the saved state with every edit confirmed |
| SaveQueue.VaultSaveQueue.OnChanged | frontend/src/lib/vaultSave.ts:79-87 | an edit raises the revision of a live queue, and arms the timer exactly if no upload runs and none has failed |
| SaveQueue.VaultSaveQueue.StartSave | frontend/src/lib/vaultSave.ts:89-96 | clears the timer, and starts an upload exactly in a live, idle queue with an unconfirmed edit, in a failed state too |
| SaveQueue.VaultSaveQueue.OnExported | frontend/src/lib/vaultSave.ts:97-99 | uploads what was exported against the current version, fails, or leaves if the queue was discarded |
| SaveQueue.VaultSaveQueue.OnAnswer | frontend/src/lib/vaultSave.ts:99-113 | a confirmed newer version is saved or leads to another round; anything else is a failure that says whether it was a conflict and confirms nothing |
| SaveQueue.VaultSaveQueue.OnDiscard | frontend/src/lib/vaultSave.ts:72-77 | the timer is cleared and the queue aborted |
| SaveQueue.VaultSaveQueue.RecoverDraft | frontend/src/lib/vaultSave.ts:55-58 | a recovered draft counts as an unconfirmed edit and shows as a failure, on a discarded queue too |
| VaultSystem.NoLostUpdate | internal/vault/vault.go:352-366 | with any number of clients, restores and lost answers interleaved, version v + 1 came from a writer the server had acknowledged version v to and holds every edit of version v, or is a content restored |
| VaultSystem.UploadsOnlyAdd | internal/vault/vault.go:352-366 | an edit once accepted is in every later version up to the next restore |
| VaultSystem.SavedIsTrue | frontend/src/lib/vaultSave.ts:99-103 | a live queue that shows "saved at v" holds in memory exactly the server's version v |
| VaultSystem.RetrySaves | frontend/src/lib/vaultSave.ts:89-113 | a retry by a live client on the current version, handled and answered, makes its vault the server's next version and shows it as saved |
| VaultSystem.ConflictIsFinal | frontend/src/lib/vaultSave.ts:105-110 | a client once told of a conflict never has another upload accepted |
| VaultSystem.AbandonedClientIsSilent | frontend/src/lib/vaultSave.ts:70-77 | a discarded client never sends another request |
| VaultSystem.ServerKeeps | internal/vault/vault.go:337-418 | the server handling any outstanding request keeps the system's invariant |
| VaultSystem.AnswerKeeps | frontend/src/lib/vaultSave.ts:99-113 | an answer that arrives keeps it |
| VaultSystem.LocalEventKeeps | frontend/src/lib/vaultSave.ts:29-113 | an edit, a retry, a timer, a failed export, a lost answer, a recovered draft and a discard keep it |
| VaultSystem.ExportKeeps | frontend/src/lib/vaultSave.ts:97-98 | an upload of any content the vault had between the start of the export and its end keeps it |
| VaultSystem.RestoreKeeps | internal/vault/vault.go:467-519 | a restore keeps it |
| LogoutLog.LogoutStore.constructor | internal/sso/logout.go:73-93 | a restart takes up exactly the persisted events |
| LogoutLog.LogoutStore.Admit | internal/sso/logout.go:99-120 | what is retained afterwards is what has not expired, and the event itself exactly if it is accepted; it is refused as a replay exactly if its key is retained, and otherwise only for capacity or a failed write |
| LogoutLog.KeysDiffer | internal/sso/logout.go:95-95 | two tokens share a key only if issuer, client and token ID agree, as long as the first two hold no zero |
| LogoutLog.LogoutStore.Fenced | internal/sso/logout.go:124-133 | true exactly when an unexpired event of the same issuer and client names the session, or the subject no earlier than the identity was issued |
| Pairings.DeviceStore.CreatePairingSession | internal/devices/devices.go:108-133 | the pairing is filed under its PIN and its secret, for ninety seconds |
| Pairings.DeviceStore.RedeemPairing | internal/devices/devices.go:137-182 | an unexpired pairing is consumed under both keys even when the device cannot be saved; the device is registered exactly on success |
| Pairings.DeviceStore.CancelUserPairings | internal/devices/devices.go:249-258 | the loop over the PINs removes exactly the user's PINs and the secrets they lead to, every other unchanged |
| Pairings.CreationKeepsPairs | internal/devices/devices.go:120-131 | a new pairing keeps the two maps in step if and only if no pairing that can still be redeemed holds its PIN |
| Pairings.LivePairingRedeems | internal/devices/devices.go:137-160 | a new pairing is redeemed by its PIN and by its secret exactly until it expires, and by neither a second time |
| Pairings.RedemptionKeepsPairs | internal/devices/devices.go:137-182 | redemption keeps them in step |
| Pairings.CancelMissesExactly | internal/devices/devices.go:249-258 | a secret of the user's survives a cancel if and only if no PIN leads to it any more |
| Pairings.CancelAllIsComplete | internal/devices/devices.go:249-258 | while the maps are in step, nothing of the cancelled users' can be redeemed afterwards and everybody else's secrets stay |
| Pairings.SharedPinOutlivesCancel | internal/devices/devices.go:120-131 | two pairings that draw one PIN, for two users or for one: cancelling leaves the first secret redeemable |
| Pairings.DeviceStore.Revoke | internal/devices/devices.go:236-246 | removes the device and nothing else, reporting whether it was there |
| Sessions.Server.StartSession | internal/api/server.go:301-357 | mints a session exactly for an active account and a revocable identity no logout fences, and changes nothing otherwise |
| Sessions.Server.ApplySSOLogout | internal/api/sso_logout.go:116-133 | an accepted event ends exactly, of its issuer and client, the session it names if it names one, and otherwise those of its subject issued no later; it counts them and cancels exactly their users' pairings; a refused one changes nothing |
| Sessions.Server.EndMatching | internal/api/sso_logout.go:121-131 | the loop over the table ends exactly the matching sessions, whatever order it visits them in |
| Sessions.Server.RevokeDirectorySessions | internal/api/scim_handlers.go:231-240 | cancels the user's pairings and removes exactly the user's sessions, every other unchanged |
| Sessions.Server.HandlePairingRedeem | internal/api/device_handlers.go:49-99 | consumes the pairing, and leaves a device registered exactly when a session was minted for it |
| Sessions.Server.CurrentUser | internal/api/server.go:373-406 | answers as the user of an unexpired session whose account is active, and as nobody otherwise |
| SessionRuns.LogoutFence | internal/api/sso_logout.go:116-133 | in every interleaving, with clock readings taken before the lock, no session in the table is the one a retained, unexpired event of its issuer and client names, or of the subject it names and issued no later; and every session can be named |
| SessionRuns.LogoutEndsExactly | internal/sso/logout.go:46-54 | the same over the fields in a run: a session goes if and only if the event names it, or names no session but its subject no earlier than it was issued, and no other changes |
| SessionRuns.LoginIsExact | internal/api/server.go:317-357 | a login is admitted if and only if the account is active, the identity can be named and no retained event names it; it is then in the table and answered until it expires |
| SessionRuns.AcceptedTokenIsRefusedAgain | internal/sso/logout.go:99-120 | a logout token accepted once is refused while it is retained, across restarts |
| SessionRuns.StaleFenceIsSafe | internal/api/server.go:314-336 | a clock reading taken before the lock fences at least what the present one would |
| SessionRuns.FenceKeeps | internal/api/server.go:314-336 | every event keeps the fence over the table and over the login about to be inserted |
| SessionRuns.AdmissionRetains | internal/sso/logout.go:99-120 | what was accepted stays in memory and on disk until it expires, whatever is admitted or refused after it |
| SessionRuns.DeprovisioningHolds | internal/api/scim_handlers.go:124-132 | once a deactivation has returned and until reactivation, the user has no session, none about to be inserted, none can be started, and no token is answered as that user |
| SessionRuns.DeactivationReturns | internal/api/scim_handlers.go:201-207 | a deactivation that returns while the account is inactive brings that into force |
| SessionRuns.EndedSessionNeverRevives | internal/api/server.go:317-336 | a session token once drawn and gone never returns to the table and is never answered |
| SessionRuns.CancelledPairingNeverRedeems | internal/api/device_handlers.go:49-99 | a pairing drawn before a cancel of its user's pairings, by a deactivation or by a logout, is never redeemed, by PIN or secret, in any later interleaving |
| SessionRuns.CancelsReachAll | internal/api/sso_logout.go:121-131 | both cancels count every pairing the user has been issued |
| AuditBudget.Budget.Take | internal/api/audit_budget.go:72-96 | charges the source itself if it is in the table or there is room, and otherwise the overflow bucket, and no other entry; records exactly while the window has burst left, and hands out what a closed window had suppressed |
| AuditBudget.Budget.Collect | internal/api/audit_budget.go:115-134 | removes exactly the sources whose window has passed, or all, and hands out each one's own suppressed count |
| BudgetRuns.NothingIsDropped | internal/api/audit_budget.go:72-134 | after any run on any clock, rejections asked equal those recorded, those handed out folded and those still held |
| BudgetRuns.DrainSettles | internal/api/audit_budget.go:204-212 | after a drain nothing is held: all was recorded or handed out |
| BudgetRuns.TableIsBounded | internal/api/audit_budget.go:22-28 | the table holds at most 1024 sources and the overflow bucket, and no window records past its burst |
| BudgetRuns.RateIsBounded | internal/api/audit_budget.go:72-134 | after any history, in any stretch one window long without a drain, at most 2 * 1025 * burst rejections are recorded individually over all sources |
| BudgetRuns.OwnAllowance | internal/api/audit_budget.go:72-96 | a source first seen while the table has room has exactly its first burst of rejections in the window recorded, whatever other sources do |
| BudgetRuns.TakeConserves | internal/api/audit_budget.go:72-96 | one take adds one to what is held unless it records or hands out |
| BudgetRuns.CollectConserves | internal/api/audit_budget.go:115-134 | what a collection hands out and what it keeps is what was held |
| CsvRecords.ParseCsvRecords | frontend/src/lib/csvImport.ts:47-127 | the character loop returns what the recursive reader `Records` defines |
| CsvRecords.DelimiterOf | frontend/src/lib/csvImport.ts:54-65 | the most frequent of the three delimiters on the first line, a comma unless one strictly wins |
| CsvRoundTrip.RoundTrip | frontend/src/lib/csvImport.ts:47-127 | printing any non-empty rows with minimal quoting and any mixture of terminators and reading them back returns those with content, in order, if and only if the text does not start with a byte-order mark in such a row |
| CsvRoundTrip.RoundTripWithMark | frontend/src/lib/csvImport.ts:49-52 | with a mark of its own in front the text always reads back as the rows with content |
| CsvRoundTrip.HeaderDecidesDelimiter | frontend/src/lib/csvImport.ts:54-65 | a header of two or more bare fields makes the reader detect the printer's delimiter |
| CsvRoundTrip.ReadingIsStable | frontend/src/lib/csvImport.ts:47-127 | whatever was read is a table of rows with content; printing it behind a byte-order mark, with a delimiter the reader then detects, and reading it again changes nothing |
| CsvRoundTrip.ReadField | frontend/src/lib/csvImport.ts:72-96 | a printed field, quoted or not, reads back as itself before a delimiter, a terminator or the end |
| CsvRoundTrip.ReadRows | frontend/src/lib/csvImport.ts:67-126 | printed rows read back one after another whatever their terminators; blank lines and rows of blank fields, anywhere and any number, change nothing else |
| CsvRoundTrip.ReadMixed | frontend/src/lib/csvImport.ts:76-94 | a quote may open anywhere in a field, and what it encloses joins what stands around it |
| CsvRecords.WhatIsBlank | frontend/src/lib/csvImport.ts:101-101 | letters, digits and punctuation are content; blanks, tabs and line ends are not |
| UserStore.Store.constructor | internal/users/users.go:90-125 | the indexes built from a file are exact if and only if it repeats no case-folded name and no subject, and then they are the only exact ones |
| UserStore.Store.CreateDirectoryUser | internal/users/users.go:151-196 | does what `Created` says to table, indexes and file, and undoes it all when it cannot be saved |
| UserStore.Store.LinkSSO | internal/users/users.go:258-284 | does what `Linked` says, in memory even when it cannot be saved, and then not to the file |
| UserStore.Store.Change | internal/users/users.go:287-332 | role, activation and deactivation change their field and no index, in memory even when they cannot be saved, and then not in the file |
| UserStore.Store.UpdateDirectory | internal/users/users.go:341-357 | replaces the directory attributes in table and file, and rolls back when it cannot be saved |
| UserStore.RestartForgetsUnsaved | internal/users/users.go:258-332 | a link, role or activation change that could not be saved is gone after a restart |
| UserStore.IndexesAreUnique | internal/users/users.go:90-125 | a table has one pair of exact indexes |
| UserStore.CreationKeepsIndex | internal/users/users.go:151-196 | a creation keeps both indexes exact inverses if and only if it changed nothing or the subject is not empty; an error changes nothing |
| UserStore.CreationIsExact | internal/users/users.go:151-196 | a creation is refused for a blank name, for a folded name some account holds, or when it cannot be saved, and changes nothing then; a subject some account has is answered with that account; anything else is a new account with the role, activation and identity asked for |
| UserStore.LinkIsExact | internal/users/users.go:258-284 | a link is refused for an unknown account or a subject another account has; otherwise it changes that account's identity alone, saved or not |
| UserStore.LinkKeepsIndex | internal/users/users.go:258-284 | a link keeps them exact if and only if it changed nothing or the subject is not empty; a taken subject is refused unchanged |
| UserStore.UpdateKeepsIndex | internal/users/users.go:341-357 | a directory update keeps both indexes exact and every subject where it was, and is in the file, or undoes itself |
| UserStore.IndexedIsUnambiguous | internal/users/users.go:211-232 | with exact indexes no two accounts share a name or a subject |
| UserStore.SavedFileIsWellFormed | internal/users/users.go:127-143 | what a store with exact indexes saves is a file that a restart indexes exactly |
| DirectorySync.Handlers.HandleSyncWebhook | internal/api/sync_handlers.go:91-169 | does what `HandledWebhook` says: create, update or delete by subject, never adopting an account by name |
| DirectorySync.Handlers.ProvisionFromSCIM | internal/api/sync_handlers.go:47-62 | a taken name is suffixed once with part of the subject |
| DirectorySync.Handlers.HandleSCIMUser | internal/api/scim_handlers.go:105-208 | does what `HandledSCIM` says: hides tombstoned accounts, refuses a changed identity, a used name, and a resource that is incomplete, too long or improper |
| DirectorySync.KnownSubjectWebhook | internal/api/sync_handlers.go:91-169 | for a subject some account has, a create restores it if it was deleted and is a duplicate otherwise, an update applies unless it was deleted, and a delete deactivates and marks it, each only if saved |
| DirectorySync.UnknownSubjectWebhook | internal/api/sync_handlers.go:91-169 | for any other subject a delete finds nothing, an update is ignored unless accounts are provisioned, and a create provisions one |
| DirectorySync.ProvisionIsExact | internal/api/sync_handlers.go:47-62 | a provisioned account has the name it came with, or that name and part of the subject if it is taken, and the role and activation sent; it is made exactly if that name is free and it can be saved |
| DirectorySync.ScimDeleteIsExact | internal/api/scim_handlers.go:124-133 | a SCIM delete finds no hidden account, and deactivates and marks any other |
| DirectorySync.ScimReplaceIsExact | internal/api/scim_handlers.go:134-208 | a SCIM replace changes a visible account only if it is fit, keeps its identity and shows no name in use |
| DirectorySync.ScimPostKnown | internal/api/scim_handlers.go:171-208 | a SCIM create for a subject some account has restores it if it was deleted, and is a duplicate otherwise |
| DirectorySync.ScimPostUnknown | internal/api/scim_handlers.go:171-208 | for any other subject the provisioned account is there whether or not the second write lands, and only then is it done |
| DirectorySync.NameInUseMeans | internal/api/scim_handlers.go:171-176 | a name is in use if and only if another identity's visible account shows it, under its directory name or else its own |
| DirectorySync.DirectoryStaysIndexed | internal/users/users.go:151-284 | over any run of webhooks, SCIM requests, sign-ins, links, local changes and restarts, whatever fails to save, both indexes stay exact, the file stays one a restart indexes exactly, and no account is removed |
| DirectorySync.SubjectsKeepTheirAccounts | internal/api/sync_handlers.go:91-181 | from a store with nothing unsaved, under directory events, sign-ins and restarts, a subject goes on naming the account it named |
| DirectorySync.TombstoneOutlivesUpdates | internal/api/scim_handlers.go:71-73 | no update, delete, link or other account's event lifts a tombstone, only a create for its subject or a local reactivation; a restart keeps it if and only if the file has it |
| DirectorySync.TombstoneHoldsOverRuns | internal/api/sync_handlers.go:91-181 | over any run in which neither happens, a deletion that has been saved stays, in memory and in the file |
| DirectorySync.HookStep | internal/api/sync_handlers.go:91-169 | a webhook keeps the indexes and every subject's account, is saved or has not happened, and leaves every tombstone but that of a created subject untouched |
| DirectorySync.ScimPostStep | internal/api/scim_handlers.go:140-208 | so does a SCIM create, whichever of its two writes fails |
| DirectorySync.ScimTargetStep | internal/api/scim_handlers.go:105-208 | and a SCIM replace or delete leaves every tombstone untouched |
| AttachmentVault.KeePassVault.AttachmentUsage | frontend/src/lib/kdbx.ts:277-294 | the nested loops return the bytes of each distinct hashed content once plus every inline occurrence in base64, over all entries and versions |
| AttachmentVault.KeePassVault.CountVersion | frontend/src/lib/kdbx.ts:282-290 | the innermost loop counts a hashed content only the first time it is met |
| AttachmentVault.KeePassVault.InlineCheckpointBytes | frontend/src/lib/kdbx.ts:335-336 | what a checkpoint of the entry would write out again |
| AttachmentVault.KeePassVault.PushHistory | frontend/src/lib/kdbx.ts:377-391 | appends a copy of the entry and drops the oldest past the limit, or nothing when history is off |
| AttachmentVault.KeePassVault.AddAttachment | frontend/src/lib/kdbx.ts:320-344 | goes ahead exactly for a valid free name, a file of at most 10 MiB, a live entry and a usage within 40 MiB, and then the file is there and the recomputed usage of the whole vault within 40 MiB, checkpoint and pruning included; otherwise it changes nothing |
| AttachmentVault.KeePassVault.RemoveAttachment | frontend/src/lib/kdbx.ts:346-358 | removes the name, from history too when asked, and changes usage by exactly its price less what is pruned and freed |
| AttachmentVault.KeePassVault.ClearAttachmentHistory | frontend/src/lib/kdbx.ts:302-311 | empties every older version of a live entry, reporting whether any held something |
| AttachmentVault.KeePassVault.RestoreEntryVersion | frontend/src/lib/kdbx.ts:393-413 | makes an older version of a live entry current behind a checkpoint, or refuses and changes nothing |
| AttachmentVault.KeePassVault.UpdateEntry | frontend/src/lib/kdbx.ts:459-493 | an edit checkpoints the entry, unguarded, and may move it in or out of the bin |
| AttachmentVault.KeePassVault.RecoverEntryCopy | frontend/src/lib/kdbx.ts:159-188 | a live entry of another vault comes in with its whole history, unchecked |
| Attachments.AddedIsThere | frontend/src/lib/kdbx.ts:340-343 | an addition adds exactly one hashed file under its name, behind a checkpoint |
| Attachments.RemovedIsGone | frontend/src/lib/kdbx.ts:352-354 | a removal takes exactly one name away, from the kept versions too if asked |
| Attachments.RestoredIsBack | frontend/src/lib/kdbx.ts:393-413 | a restore brings exactly the version's files back, and an edit changes none, behind a checkpoint |
| Attachments.CheckpointKeepsVersions | frontend/src/lib/kdbx.ts:377-391 | a checkpoint keeps the newest versions, the current one last, as many as the limit allows |
| Attachments.AdditionCost | frontend/src/lib/kdbx.ts:332-339 | usage after an addition is usage before it and what the guard compares, less what pruning drops inline and the contents nobody refers to any more |
| Attachments.RemovalCost | frontend/src/lib/kdbx.ts:346-358 | usage after a removal, exactly: its checkpoint's inline bytes more, the removed ones less, and what is pruned and freed less |
| Attachments.RestoreCost | frontend/src/lib/kdbx.ts:393-413 | usage after a restore, exactly: the checkpoint's and the version's inline bytes more, the replaced ones less, and what is pruned and freed less |
| Attachments.EditCost | frontend/src/lib/kdbx.ts:459-493 | usage after an edit, exactly: its checkpoint's inline bytes more, and what is pruned and freed less |
| Attachments.ClearingCost | frontend/src/lib/kdbx.ts:302-311 | clearing an entry's history saves exactly its inline bytes and the contents nobody else refers to |
| Attachments.ArrivalCost | frontend/src/lib/kdbx.ts:159-188 | a recovered copy costs exactly its inline bytes and the contents new to the vault |
| Attachments.DepartureCost | frontend/src/lib/kdbx.ts:500-508 | an entry deleted for good saves exactly its inline bytes and the contents nobody else refers to |
| Attachments.UsageSplits | frontend/src/lib/kdbx.ts:277-294 | usage is everybody else's versions plus one entry's, hashed contents shared |
| AttachmentRuns.StepCost | frontend/src/lib/kdbx.ts:277-508 | whatever a vault's method does to attachments, usage changes by exactly its price less what is pruned and freed |
| AttachmentRuns.BudgetIsExact | frontend/src/lib/kdbx.ts:277-508 | over any run of additions, removals, restores, edits, clearings, creations, recovered copies and deletions the budget holds throughout if and only if each change costs no more than is left |
| AttachmentRuns.GuardIsSafe | frontend/src/lib/kdbx.ts:332-339 | the guard of an addition, asked of any change, lets none through that takes the vault past its budget |
| AttachmentRuns.BudgetHoldsOverRuns | frontend/src/lib/kdbx.ts:277-508 | so the budget holds throughout every run whose changes would all pass it |
| AttachmentRuns.BudgetWithoutInline | frontend/src/lib/kdbx.ts:277-508 | in a vault with nothing inline the budget holds throughout a run, whose copies have nothing inline either, if and only if every recovered copy would pass the guard |
| AttachmentRuns.RemovalCanExceed | frontend/src/lib/kdbx.ts:346-358 | an entry with two imported files of twelve mebibytes is within the budget, and removing one of them takes the vault past it |
| AttachmentRuns.RestoreCanExceed | frontend/src/lib/kdbx.ts:393-413 | so does restoring an older version of an entry with one such file |
| AttachmentRuns.EditCanExceed | frontend/src/lib/kdbx.ts:459-493 | so does changing one field of an entry with two |
| AttachmentRuns.RecoveryCanExceed | frontend/src/lib/kdbx.ts:159-188 | with nothing inline, a copy recovered from another vault within its budget takes this one past its own |
| CsvImport.Vault.FindDuplicates | frontend/src/lib/csvImport.ts:414-423 | the loop flags the rows whose content is in the live vault or was selected earlier in the file |
| CsvImport.DuplicatesAreFlagged | frontend/src/lib/csvImport.ts:414-423 | a row is flagged if and only if its content is in the live vault or in a row selected before it |
| CsvImport.PendingRowByRow | frontend/src/lib/csvImport.ts:440-442 | the pending rows are the selected ones that are not flagged, in order |
| CsvImport.NothingLeft | frontend/src/lib/csvImport.ts:414-441 | once all that was pending is in the vault, nothing of the same file is pending |
| CsvImport.Vault.IndexGroups | frontend/src/lib/csvImport.ts:462-471 | the loop over the listing builds the map from case-folded path to the last group listed under it |
| FolderPaths.ByPathFinds | frontend/src/lib/csvImport.ts:457-471 | that map leads, for exactly the paths there are, to a group that has the path |
| FolderPaths.ByPathIsLast | frontend/src/lib/csvImport.ts:462-471 | and to the last of them listed |
| FolderPaths.SplitReadsNames | frontend/src/lib/csvImport.ts:401-406 | splitting reads back the names a folder path spells, with slashes of either kind between them |
| FolderPaths.WhatIsAFolderName | frontend/src/lib/kdbx.ts:89-94 | printable text of at most 255 characters is a folder name; blank, overlong and control text is not |
| FolderPaths.PathIsTrail | frontend/src/lib/csvImport.ts:462-471 | a group's path is the case-folded names from the root down to it, a separator between each and the next; a group with a blank name is transparent as long as nothing above it is named |
| FolderPaths.PathsAgreeOnNames | frontend/src/lib/csvImport.ts:457-480 | so a folder path leads to a group if and only if its segments are, case folded, the names down to that group |
| CsvImport.Vault.GetOrCreateGroup | frontend/src/lib/csvImport.ts:475-491 | ends in a live group whose case-folded path is the folder's, making each missing prefix once |
| CsvImport.Vault.EnterFolder | frontend/src/lib/csvImport.ts:478-489 | one segment: the group the map names, or a new one under the parent with the path entered |
| CsvImport.Vault.Check | frontend/src/lib/csvImport.ts:445-453 | raises the first pending row's depth or name error before anything is created |
| CsvImport.RefusalIsExact | frontend/src/lib/csvImport.ts:445-453 | an import by folder is refused if and only if some pending row's path is more than sixteen names deep or holds a bad name |
| CsvImport.Vault.ImportRows | frontend/src/lib/csvImport.ts:501-519 | one entry a row, each in the group of its folder, with the map grown by exactly the prefixes the rows need |
| CsvImport.Vault.ApplyImport | frontend/src/lib/csvImport.ts:428-522 | a refusal leaves the vault as it was; otherwise each pending row lands with all its fields, an empty title as Untitled, in a live group of its folder's path, each missing path made exactly once, or all in the chosen folder |
| CsvImport.Vault.ImportTwice | frontend/src/lib/csvImport.ts:428-522 | repeating an import with duplicates skipped imports nothing and makes no folder exactly when the rows land outside the recycle bin |
| CsvImport.Vault.CreateGroup | frontend/src/lib/kdbx.ts:511-516 | refuses a bad name or an unknown parent unchanged, or adds one group with the trimmed name |

## Left out

- The shared chain package is not part of this model; its append, replay, resume and verification are taken as their call sites describe them, and its digest as injective.
- The audit log's 64-bit sequence arithmetic: positions are unbounded integers, and a negative stored index is just another misplaced record.
- Failures of the rollback's own truncate, of the conversion's rewrite and of the files' first creation; the rewrite is not flushed by the code, and a rewrite or repair that has returned is taken as durable; a boot is one step.
- A flush that succeeds is taken to flush the whole file, also after one that failed.
- `List`, `Snapshot` and `ExportChain` of the audit log, and its key file: they read the same stream.
- Text that JSON cannot carry back unchanged, such as invalid UTF-8, is excluded by the codec's round-trip law.
- Vault.SaveVault: I/O failures other than names that are too long or hold a zero byte are not modelled, nor are device envelopes; a path that leaves the user's directory is another user's or nobody's file here, and `Keep` says what such a file becomes where it arrives. The several clock readings of one call are one reading, and path length limits beyond a single name's are outside, as are device names that are not valid UTF-8.
- Vault.RestoreHistory: a file outside the user's directory is whatever `outside` says it holds.
- HistoryThinning.Ordered: the order among archives of one modification time, which the sort leaves open, is whatever the listing gives.
- Notifying listeners, which do not call back into the queue, and the serial export chain of the save queue; lock state of the vault object beyond the abort flag.
- Sessions: cookies, CSRF, device touch, session expiry sweeps and `currentUser`'s idle handling; a local administrator's deactivation is an event of the runs but revokes nothing, as in the code.
- Pairing codes are taken as already trimmed; a device's token and metadata are outside.
- Randomness: session tokens and pairing secrets are assumed never to be drawn twice, and within runs a PIN is assumed not to be held by a pairing that can still be redeemed; `Pairings` proves what happens otherwise.
- Back-channel logout token verification, OIDC token exchange and webhook signatures: foreign code.
- The budget's `sourceKey`, the ticker and the writing of folded records: plumbing around `take`, `sweep` and `drain`.
- CSV text and folder names are sequences of characters rather than UTF-16 units; provider detection and column mapping are table-driven and left out.
- Store.CreateDirectoryUser: timestamps are left out, and the account ID is a drawn one not yet in use.
- Handlers.HandleSCIMUser: PATCH arrives as its complete candidate, and whether a request names the schema, has at most one email and one role and can be read is one flag; listing is outside, a suggested name is cut after characters rather than bytes, and the case-insensitive name comparison is the same folding as the index's.
- Removing accounts: the store has no such operation.
- Vault.ApplyImport: identifiers are fresh numbers, a new group is listed last rather than in pre-order, and the default group is taken to lie outside the recycle bin.
- Attachments: entries other than their binaries and history, and byte-based history limits, which the code does not enforce either.
- SHA-256 checksums and attachment hashes are taken as free of collisions.
- Encryption, key derivation, KDBX serialisation, recovery capsules, backup, HTTP routing and the user interface.
